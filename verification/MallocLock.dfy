/** The recursive malloc lock of xenon_syscalls.c: two spinlocks, a count and an
    owner word, used by any number of threads. Every C statement that touches
    shared memory is one step; the threads' steps interleave freely. */
module MallocLock {

  const NO_OWNER: int := -1

  /** The next statement of a thread. `Idle` is outside both functions. */
  datatype Pc =
    | Idle
    // xenon_malloc_lock
    | TakeSafety      // lock(&safety_spinlock)
    | ReadCount       // llc = lockcount
    | ReadOwner       // llo = lockowner
    | AssertCount     // assert(llc >= 0)
    | DropSafety      // unlock(&safety_spinlock)
    | Branch          // if (llc == 0 || llo != pir_)
    | TakeMalloc      // lock(&malloc_spinlock)
    | EnterSafety     // lock(&safety_spinlock)
    | EnterCount      // ++lockcount
    | EnterOwner      // lockowner = pir_
    | EnterDrop       // unlock(&safety_spinlock)
    | AgainSafety     // lock(&safety_spinlock)
    | AgainCount      // ++lockcount
    | AgainDrop       // unlock(&safety_spinlock)
    // xenon_malloc_unlock
    | LeaveSafety     // lock(&safety_spinlock)
    | LeaveReadCount  // llc = lockcount
    | LeaveReadOwner  // llo = lockowner
    | LeaveCount      // --lockcount
    | AssertHeld      // assert(llc > 0)
    | AssertOwner     // assert(llo == pir_)
    | LeaveBranch     // if (llc == 1)
    | ReleaseMalloc   // unlock(&malloc_spinlock)
    | ClearOwner      // lockowner = -1
    | LeaveDrop       // unlock(&safety_spinlock)

  /** `depth` is the number of lock calls that returned and are not yet undone by
      a returned unlock call. */
  datatype Thread = Thread(pc: Pc, llc: int, llo: int, depth: nat)

  /** The four shared words. */
  datatype Shared = Shared(malloc: bool, safety: bool, lockcount: int, lockowner: int)

  datatype State = State(mem: Shared, threads: map<nat, Thread>)

  ghost predicate Init(s: State) {
    && s.mem == Shared(false, false, 0, NO_OWNER)
    && forall t | t in s.threads :: s.threads[t].pc == Idle && s.threads[t].depth == 0
  }

  /** One statement of the thread `t` with local state `th`. A spinlock acquisition
      is possible only while the word is clear; an idle thread may call lock, or
      unlock when it is inside. */
  ghost predicate Stmt(t: nat, th: Thread, m: Shared, th': Thread, m': Shared) {
    match th.pc
    case Idle => m' == m && (th' == th.(pc := TakeSafety) || (th.depth > 0 && th' == th.(pc := LeaveSafety)))
    case TakeSafety => !m.safety && m' == m.(safety := true) && th' == th.(pc := ReadCount)
    case ReadCount => m' == m && th' == th.(pc := ReadOwner, llc := m.lockcount)
    case ReadOwner => m' == m && th' == th.(pc := AssertCount, llo := m.lockowner)
    case AssertCount => m' == m && th' == th.(pc := DropSafety)
    case DropSafety => m' == m.(safety := false) && th' == th.(pc := Branch)
    case Branch => m' == m && th' == th.(pc := if th.llc == 0 || th.llo != t then TakeMalloc else AgainSafety)
    case TakeMalloc => !m.malloc && m' == m.(malloc := true) && th' == th.(pc := EnterSafety)
    case EnterSafety => !m.safety && m' == m.(safety := true) && th' == th.(pc := EnterCount)
    case EnterCount => m' == m.(lockcount := m.lockcount + 1) && th' == th.(pc := EnterOwner)
    case EnterOwner => m' == m.(lockowner := t) && th' == th.(pc := EnterDrop)
    case EnterDrop => m' == m.(safety := false) && th' == th.(pc := Idle, depth := th.depth + 1)
    case AgainSafety => !m.safety && m' == m.(safety := true) && th' == th.(pc := AgainCount)
    case AgainCount => m' == m.(lockcount := m.lockcount + 1) && th' == th.(pc := AgainDrop)
    case AgainDrop => m' == m.(safety := false) && th' == th.(pc := Idle, depth := th.depth + 1)
    case LeaveSafety => !m.safety && m' == m.(safety := true) && th' == th.(pc := LeaveReadCount)
    case LeaveReadCount => m' == m && th' == th.(pc := LeaveReadOwner, llc := m.lockcount)
    case LeaveReadOwner => m' == m && th' == th.(pc := LeaveCount, llo := m.lockowner)
    case LeaveCount => m' == m.(lockcount := m.lockcount - 1) && th' == th.(pc := AssertHeld)
    case AssertHeld => m' == m && th' == th.(pc := AssertOwner)
    case AssertOwner => m' == m && th' == th.(pc := LeaveBranch)
    case LeaveBranch => m' == m && th' == th.(pc := if th.llc == 1 then ReleaseMalloc else LeaveDrop)
    case ReleaseMalloc => m' == m.(malloc := false) && th' == th.(pc := ClearOwner)
    case ClearOwner => m' == m.(lockowner := NO_OWNER) && th' == th.(pc := LeaveDrop)
    case LeaveDrop => m' == m.(safety := false) && th.depth > 0 && th' == th.(pc := Idle, depth := th.depth - 1)
  }

  /** Any one thread takes a step. */
  ghost predicate Step(s: State, s': State) {
    exists t :: StepOf(s, s', t)
  }

  ghost predicate StepOf(s: State, s': State, t: nat) {
    && t in s.threads && t in s'.threads
    && s'.threads == s.threads[t := s'.threads[t]]
    && Stmt(t, s.threads[t], s.mem, s'.threads[t], s'.mem)
  }

  // ----- Who holds what

  predicate InSafety(pc: Pc) {
    (pc.ReadCount? || pc.ReadOwner? || pc.AssertCount? || pc.DropSafety? || pc.EnterCount? || pc.EnterOwner? ||
      pc.EnterDrop? || pc.AgainCount? || pc.AgainDrop?)
    || (pc.LeaveReadCount? || pc.LeaveReadOwner? || pc.LeaveCount? || pc.AssertHeld? || pc.AssertOwner? ||
      pc.LeaveBranch? || pc.ReleaseMalloc? || pc.ClearOwner? || pc.LeaveDrop?)
  }

  predicate Entering(pc: Pc) {
    (pc.EnterSafety? || pc.EnterCount? || pc.EnterOwner? || pc.EnterDrop?)
  }

  predicate Leaving(pc: Pc) {
    (pc.LeaveSafety? || pc.LeaveReadCount? || pc.LeaveReadOwner? || pc.LeaveCount? || pc.AssertHeld? ||
      pc.AssertOwner? || pc.LeaveBranch?)
    || (pc.ReleaseMalloc? || pc.ClearOwner? || pc.LeaveDrop?)
  }

  predicate AfterDecrement(pc: Pc) {
    (pc.AssertHeld? || pc.AssertOwner? || pc.LeaveBranch? || pc.ReleaseMalloc? || pc.ClearOwner? || pc.LeaveDrop?)
  }

  /** The thread holds the malloc spinlock. */
  predicate HoldsMalloc(th: Thread) {
    Entering(th.pc) || (th.depth > 0 && !th.pc.ClearOwner? && !(th.pc.LeaveDrop? && th.depth == 1))
  }

  /** The owner word names the thread. */
  predicate Owns(th: Thread) {
    th.pc.EnterDrop? || (th.depth > 0 && !(th.pc.LeaveDrop? && th.depth == 1))
  }

  /** The count while the thread holds the malloc lock: its nesting depth, plus or
      minus a call in progress. */
  function Count(th: Thread): int {
    th.depth + (if (th.pc.EnterOwner? || th.pc.EnterDrop? || th.pc.AgainDrop?) then 1 else 0)
    - (if AfterDecrement(th.pc) then 1 else 0)
  }

  /** Facts about one thread's program counter and locals in the lock function. */
  ghost predicate LockOk(t: nat, th: Thread) {
    && (th.pc.TakeMalloc? || Entering(th.pc) ==> th.depth == 0)
    && (th.pc.AgainSafety? || th.pc.AgainCount? || th.pc.AgainDrop? ==> th.depth > 0)
    && (th.pc.ReadOwner? ==> th.llc >= 0 && (th.depth > 0 ==> th.llc > 0))
    && (th.pc.AssertCount? || th.pc.DropSafety? ==> th.llc >= 0)
    // the reads may be stale by now, but not in what they say about this thread
    && (th.pc.AssertCount? || th.pc.DropSafety? || th.pc.Branch? ==> ((th.llc == 0 || th.llo != t) <==> th.depth == 0))
  }

  /** The same for the unlock function. */
  ghost predicate UnlockOk(t: nat, th: Thread) {
    && (Leaving(th.pc) ==> th.depth > 0)
    && (th.pc.LeaveReadOwner? || th.pc.LeaveCount? || AfterDecrement(th.pc) ==> th.llc == th.depth)
    && (th.pc.LeaveCount? || AfterDecrement(th.pc) ==> th.llo == t)
    && (th.pc.ReleaseMalloc? || th.pc.ClearOwner? ==> th.depth == 1)
  }

  ghost predicate ThreadOk(t: nat, th: Thread) {
    LockOk(t, th) && UnlockOk(t, th)
  }

  /** The safety word is set exactly while one thread is in a safety section. */
  ghost predicate SafetyInv(s: State) {
    && (s.mem.safety <==> exists t :: t in s.threads && InSafety(s.threads[t].pc))
    && (forall t, u | t in s.threads && u in s.threads && InSafety(s.threads[t].pc) && InSafety(s.threads[u].pc) ::
      t == u)
  }

  /** The malloc word is set exactly while one thread holds the malloc lock. */
  ghost predicate MallocInv(s: State) {
    && (s.mem.malloc <==> exists t :: t in s.threads && HoldsMalloc(s.threads[t]))
    && (forall t, u | t in s.threads && u in s.threads && HoldsMalloc(s.threads[t]) && HoldsMalloc(s.threads[u]) ::
      t == u)
  }

  /** The count is zero while nobody holds the malloc lock, and otherwise the
      holder's. */
  ghost predicate CountInv(s: State) {
    && (!s.mem.malloc ==> s.mem.lockcount == 0)
    && (forall t | t in s.threads && HoldsMalloc(s.threads[t]) :: s.mem.lockcount == Count(s.threads[t]))
  }

  ghost predicate OwnerInv(s: State) {
    forall t | t in s.threads :: s.mem.lockowner == t <==> Owns(s.threads[t])
  }

  ghost predicate ThreadsInv(s: State) {
    forall t | t in s.threads :: ThreadOk(t, s.threads[t])
  }

  ghost predicate Inv(s: State) {
    SafetyInv(s) && MallocInv(s) && CountInv(s) && OwnerInv(s) && ThreadsInv(s)
  }

  lemma InitInv(s: State)
    requires Init(s)
    ensures Inv(s)
  {
  }

  // ----- What one statement does to one thread

  /** What the invariant says about the thread about to move. */
  ghost predicate Here(t: nat, th: Thread, m: Shared) {
    && ThreadOk(t, th)
    && (InSafety(th.pc) ==> m.safety) && (HoldsMalloc(th) ==> m.malloc)
    && (!m.malloc ==> m.lockcount == 0) && (HoldsMalloc(th) ==> m.lockcount == Count(th))
    && m.lockcount >= 0 && (m.lockowner == t <==> Owns(th))
  }

  /** The statement keeps, takes or drops a lock. */
  ghost predicate Lock(held: bool, word: bool, held': bool, word': bool) {
    || (held' == held && word' == word)
    || (!word && word' && !held && held')
    || (held && !held' && !word')
  }

  lemma StmtLocks(t: nat, th: Thread, m: Shared, th': Thread, m': Shared)
    requires Here(t, th, m) && Stmt(t, th, m, th', m')
    ensures Lock(InSafety(th.pc), m.safety, InSafety(th'.pc), m'.safety)
    ensures Lock(HoldsMalloc(th), m.malloc, HoldsMalloc(th'), m'.malloc)
  {
  }

  lemma StmtLock(t: nat, th: Thread, m: Shared, th': Thread, m': Shared)
    requires Here(t, th, m) && Stmt(t, th, m, th', m')
    ensures LockOk(t, th')
  {
  }

  lemma StmtUnlock(t: nat, th: Thread, m: Shared, th': Thread, m': Shared)
    requires Here(t, th, m) && Stmt(t, th, m, th', m')
    ensures UnlockOk(t, th')
  {
  }

  /** The shared count and owner change only under the lock that protects them. */
  lemma StmtWords(t: nat, th: Thread, m: Shared, th': Thread, m': Shared)
    requires Here(t, th, m) && Stmt(t, th, m, th', m')
    ensures m'.lockowner == t <==> Owns(th')
    ensures m'.lockowner != m.lockowner ==> Owns(th) || (InSafety(th.pc) && HoldsMalloc(th))
    ensures m'.lockcount != m.lockcount ==> HoldsMalloc(th) && HoldsMalloc(th')
    ensures HoldsMalloc(th') ==> m'.lockcount == Count(th')
    ensures m'.lockowner == m.lockowner || m'.lockowner == t || m'.lockowner == NO_OWNER
    ensures HoldsMalloc(th) && !HoldsMalloc(th') ==> m'.lockcount == 0
  {
  }

  // ----- What one statement does to the whole state

  lemma HereAll(s: State, t: nat)
    requires Inv(s) && t in s.threads
    ensures Here(t, s.threads[t], s.mem)
  {
    if s.mem.malloc {
      var u :| u in s.threads && HoldsMalloc(s.threads[u]);
      assert ThreadOk(u, s.threads[u]);
    }
  }

  lemma StepSafety(s: State, s': State, t: nat)
    requires SafetyInv(s) && StepOf(s, s', t)
    requires Lock(InSafety(s.threads[t].pc), s.mem.safety, InSafety(s'.threads[t].pc), s'.mem.safety)
    ensures SafetyInv(s')
  {
    hide Stmt, InSafety;
    assert forall u | u in s.threads && u != t :: u in s'.threads && s'.threads[u] == s.threads[u];
    if exists u :: u in s.threads && InSafety(s.threads[u].pc) {
      var u :| u in s.threads && InSafety(s.threads[u].pc);
      assert u != t ==> InSafety(s'.threads[u].pc);
    }
  }

  lemma StepMalloc(s: State, s': State, t: nat)
    requires MallocInv(s) && StepOf(s, s', t)
    requires Lock(HoldsMalloc(s.threads[t]), s.mem.malloc, HoldsMalloc(s'.threads[t]), s'.mem.malloc)
    ensures MallocInv(s')
  {
    hide Stmt, HoldsMalloc;
    assert forall u | u in s.threads && u != t :: u in s'.threads && s'.threads[u] == s.threads[u];
    if exists u :: u in s.threads && HoldsMalloc(s.threads[u]) {
      var u :| u in s.threads && HoldsMalloc(s.threads[u]);
      assert u != t ==> HoldsMalloc(s'.threads[u]);
    }
  }

  lemma OwnerHolds(th: Thread)
    requires Owns(th)
    ensures HoldsMalloc(th) || InSafety(th.pc)
  {
  }

  lemma StepOwner(s: State, s': State, t: nat)
    requires Inv(s) && StepOf(s, s', t)
    requires s'.mem.lockowner == t <==> Owns(s'.threads[t])
    requires s'.mem.lockowner != s.mem.lockowner ==>
      Owns(s.threads[t]) || (InSafety(s.threads[t].pc) && HoldsMalloc(s.threads[t]))
    requires s'.mem.lockowner == s.mem.lockowner || s'.mem.lockowner == t || s'.mem.lockowner == NO_OWNER
    ensures OwnerInv(s')
  {
    hide Stmt, ThreadsInv, CountInv, HoldsMalloc, InSafety, Owns;
    forall u | u in s'.threads
      ensures s'.mem.lockowner == u <==> Owns(s'.threads[u])
    {
      if u != t {
        assert s'.threads[u] == s.threads[u];
        if Owns(s.threads[u]) {
          OwnerHolds(s.threads[u]);
        }
      }
    }
  }

  lemma StepWords(s: State, s': State, t: nat)
    requires Inv(s) && StepOf(s, s', t)
    ensures CountInv(s') && ThreadsInv(s') && OwnerInv(s')
  {
    hide Stmt, LockOk, UnlockOk, Count, HoldsMalloc, InSafety, Owns, SafetyInv, OwnerInv;
    HereAll(s, t);
    StmtLocks(t, s.threads[t], s.mem, s'.threads[t], s'.mem);
    StmtWords(t, s.threads[t], s.mem, s'.threads[t], s'.mem);
    StmtLock(t, s.threads[t], s.mem, s'.threads[t], s'.mem);
    StmtUnlock(t, s.threads[t], s.mem, s'.threads[t], s'.mem);
    StepOwner(s, s', t);
  }

  /** Every step of every thread keeps the invariant. */
  lemma StepInv(s: State, s': State)
    requires Inv(s) && Step(s, s')
    ensures Inv(s')
  {
    hide Stmt, SafetyInv, MallocInv, CountInv, OwnerInv, ThreadsInv, Here;
    var t :| StepOf(s, s', t);
    HereAll(s, t);
    StmtLocks(t, s.threads[t], s.mem, s'.threads[t], s'.mem);
    StepSafety(s, s', t);
    StepMalloc(s, s', t);
    StepWords(s, s', t);
  }

  // ----- Safety over whole runs

  /** A finite run: any number of threads, any interleaving. */
  ghost predicate Run(run: seq<State>) {
    run != [] && Init(run[0]) && forall i | 0 <= i < |run| - 1 :: Step(run[i], run[i + 1])
  }

  lemma {:induction false} RunInv(run: seq<State>, i: nat)
    requires Run(run) && i < |run|
    ensures Inv(run[i])
    decreases i
  {
    if i == 0 {
      InitInv(run[0]);
    } else {
      RunInv(run, i - 1);
      StepInv(run[i - 1], run[i]);
    }
  }

  /** Inside the region the lock protects: a lock call has returned and the
      matching unlock call has not started to give the lock back. */
  ghost predicate Inside(th: Thread) {
    th.depth > 0 && !th.pc.ClearOwner? && !th.pc.LeaveDrop?
  }

  /** In every state of every run: at most one thread is inside; while it is
      between calls the count is its nesting depth and the owner word its number;
      no assert can fail; and while a thread is about to wait for the malloc lock it
      is not inside already, and the safety lock, if taken, is another thread's. */
  lemma MallocLockSafe(run: seq<State>, i: nat)
    requires Run(run) && i < |run|
    ensures var s := run[i];
      && (forall t, u | t in s.threads && u in s.threads && Inside(s.threads[t]) && Inside(s.threads[u]) :: t == u)
      && (forall t | t in s.threads && s.threads[t].pc == Idle && s.threads[t].depth > 0 ::
            s.mem.lockcount == s.threads[t].depth && s.mem.lockowner == t)
      && (forall t | t in s.threads :: var th := s.threads[t];
            && (th.pc == AssertCount ==> th.llc >= 0)
            && (th.pc == AssertHeld ==> th.llc > 0)
            && (th.pc == AssertOwner ==> th.llo == t))
      && (forall t | t in s.threads && s.threads[t].pc == TakeMalloc ::
            && s.threads[t].depth == 0
            && (s.mem.safety ==> exists u :: u in s.threads && u != t && InSafety(s.threads[u].pc)))
  {
    RunInv(run, i);
    var s := run[i];
    assert forall t | t in s.threads :: ThreadOk(t, s.threads[t]);
    assert forall t | t in s.threads && Inside(s.threads[t]) :: HoldsMalloc(s.threads[t]);
  }

  /** The stale reads never choose the wrong branch: a thread goes for the malloc
      lock exactly when it is not the owner, however old its copies are. */
  lemma BranchExact(run: seq<State>, i: nat, t: nat)
    requires Run(run) && i < |run| && t in run[i].threads && run[i].threads[t].pc == Branch
    ensures var s := run[i]; var th := s.threads[t];
      (th.llc == 0 || th.llo != t) <==> s.mem.lockowner != t
  {
    RunInv(run, i);
    assert ThreadOk(t, run[i].threads[t]);
  }

  ghost predicate Enabled(s: State, t: nat) {
    exists th', m' :: t in s.threads && Stmt(t, s.threads[t], s.mem, th', m')
  }

  /** No deadlock inside the two functions: while some thread is in a call, some
      thread in a call can move, unless all of them wait for a thread that is inside and
      has control outside the functions. */
  lemma NoDeadlock(run: seq<State>, i: nat, t: nat)
    requires Run(run) && i < |run| && t in run[i].threads && run[i].threads[t].pc != Idle
    ensures var s := run[i];
      || (exists u :: u in s.threads && s.threads[u].pc != Idle && Enabled(s, u))
      || (exists u :: u in s.threads && s.threads[u].pc == Idle && s.threads[u].depth > 0)
  {
    RunInv(run, i);
    var s := run[i];
    if s.mem.safety {
      var u :| u in s.threads && InSafety(s.threads[u].pc);
      assert ThreadOk(u, s.threads[u]);
      CanStep(s, u);
    } else if s.threads[t].pc != TakeMalloc || !s.mem.malloc {
      assert ThreadOk(t, s.threads[t]);
      CanStep(s, t);
    } else {
      var u :| u in s.threads && HoldsMalloc(s.threads[u]);
      assert ThreadOk(u, s.threads[u]);
      if s.threads[u].pc != Idle {
        CanStep(s, u);
      }
    }
  }

  /** Only the two spin waits block. */
  lemma CanStep(s: State, t: nat)
    requires t in s.threads && ThreadOk(t, s.threads[t])
    requires !s.mem.safety || InSafety(s.threads[t].pc)
    requires s.threads[t].pc != TakeMalloc || !s.mem.malloc
    ensures Enabled(s, t)
  {
    var th, m := s.threads[t], s.mem;
    var th', m' := After(t, th, m);
    assert Stmt(t, th, m, th', m');
  }

  lemma After(t: nat, th: Thread, m: Shared) returns (th': Thread, m': Shared)
    requires ThreadOk(t, th) && (!m.safety || InSafety(th.pc)) && (th.pc != TakeMalloc || !m.malloc)
    ensures Stmt(t, th, m, th', m')
  {
    th', m' := th, m;
    match th.pc
    case Idle => th' := th.(pc := TakeSafety);
    case TakeSafety => m' := m.(safety := true); th' := th.(pc := ReadCount);
    case ReadCount => th' := th.(pc := ReadOwner, llc := m.lockcount);
    case ReadOwner => th' := th.(pc := AssertCount, llo := m.lockowner);
    case AssertCount => th' := th.(pc := DropSafety);
    case DropSafety => m' := m.(safety := false); th' := th.(pc := Branch);
    case Branch => th' := th.(pc := if th.llc == 0 || th.llo != t then TakeMalloc else AgainSafety);
    case TakeMalloc => m' := m.(malloc := true); th' := th.(pc := EnterSafety);
    case EnterSafety => m' := m.(safety := true); th' := th.(pc := EnterCount);
    case EnterCount => m' := m.(lockcount := m.lockcount + 1); th' := th.(pc := EnterOwner);
    case EnterOwner => m' := m.(lockowner := t); th' := th.(pc := EnterDrop);
    case EnterDrop => m' := m.(safety := false); th' := th.(pc := Idle, depth := th.depth + 1);
    case AgainSafety => m' := m.(safety := true); th' := th.(pc := AgainCount);
    case AgainCount => m' := m.(lockcount := m.lockcount + 1); th' := th.(pc := AgainDrop);
    case AgainDrop => m' := m.(safety := false); th' := th.(pc := Idle, depth := th.depth + 1);
    case LeaveSafety => m' := m.(safety := true); th' := th.(pc := LeaveReadCount);
    case LeaveReadCount => th' := th.(pc := LeaveReadOwner, llc := m.lockcount);
    case LeaveReadOwner => th' := th.(pc := LeaveCount, llo := m.lockowner);
    case LeaveCount => m' := m.(lockcount := m.lockcount - 1); th' := th.(pc := AssertHeld);
    case AssertHeld => th' := th.(pc := AssertOwner);
    case AssertOwner => th' := th.(pc := LeaveBranch);
    case LeaveBranch => th' := th.(pc := if th.llc == 1 then ReleaseMalloc else LeaveDrop);
    case ReleaseMalloc => m' := m.(malloc := false); th' := th.(pc := ClearOwner);
    case ClearOwner => m' := m.(lockowner := NO_OWNER); th' := th.(pc := LeaveDrop);
    case LeaveDrop => m' := m.(safety := false); th' := th.(pc := Idle, depth := th.depth - 1);
  }
}
