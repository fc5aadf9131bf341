/** The exclusive lock file (lockfile.ts): any number of processes, interleaved step by step, take,
    hold, release and take over a lock that lives in one file. */
module Lock {
  type Pid = nat

  /** The lock file: absent, naming its owner, or unparsable. */
  datatype File = Absent | Owned(pid: Pid) | Garbage

  /** Where a process stands in its attempt. `Bidding`: the bid is written. `Renaming`: the gate found
      a corpse. `Settling`: the bid has replaced the corpse. `Verified`: the lock was seen to be ours.
      `Listed`: the watches were read. `Claimed`: the lock is held, the watch still there. `Releasing`:
      the lock was seen to be ours. `Reading`: an inspection has read the file but not yet asked
      whether the owner it names is alive. */
  datatype Phase =
    | Idle
    | Watching
    | Looking
    | Bidding
    | Reading(seen: File, gate: bool)
    | Renaming
    | Settling
    | Verified
    | Listed(watchers: set<Pid>)
    | Claimed
    | Holding
    | Releasing
    | Failing

  datatype State = State(lock: File, alive: set<Pid>, watches: set<Pid>, phases: map<Pid, Phase>)

  datatype Action =
    | Watch
    | Link
    | Look
    | Gate
    | ReadFile
    | Judge
    | Rename
    | RenameFails(retry: bool)
    | Verify
    | List
    | Decide
    | Unwatch
    | Reap(dead: Pid)
    | Renew
    | BeginRelease
    | Unlink
    | ReleaseAtExit
    | Die

  function At(s: State, p: Pid): Phase { if p in s.phases then s.phases[p] else Idle }

  function Goes(s: State, p: Pid, phase: Phase): State { s.(phases := s.phases[p := phase]) }

  /** inspect: the file names a process that is running. Unparsable content counts as abandoned. */
  predicate NamesAlive(s: State, f: File) { f.Owned? && f.pid in s.alive }

  predicate Corpse(s: State, f: File) { f != Absent && !NamesAlive(s, f) }

  /** One atomic step of process `p`; a dead process takes none. */
  predicate Enabled(s: State, p: Pid, a: Action) {
    && p in s.alive
    && var at := At(s, p);
       match a
       case Watch => at == Idle
       case Link => at == Watching
       case Look => at == Looking
       case Gate => at == Bidding
       case ReadFile => at == Looking || at == Bidding
       case Judge => at.Reading?
       case Rename => at == Renaming
       case RenameFails(_) => at == Renaming
       case Verify => at == Settling
       case List => at == Verified
       case Decide => at.Listed?
       case Unwatch => at == Claimed || at == Failing
       case Reap(dead) => dead !in s.alive
       case Renew => at == Holding
       case BeginRelease => at == Holding
       case Unlink => at == Releasing
       case ReleaseAtExit => at == Holding
       case Die => true
  }

  /** What an inspection leads to: the first one lets a bid be written, the gate lets it be renamed. */
  function Judged(s: State, p: Pid, seen: File, gate: bool): State {
    Goes(s, p, if !Corpse(s, seen) || (gate && seen == Owned(p)) then Failing else if gate then Renaming else Bidding)
  }

  function Step(s: State, p: Pid, a: Action): State
    requires Enabled(s, p, a)
  {
    match a
    case Watch => Goes(s.(watches := s.watches + {p}), p, Watching)
    case Link => if s.lock == Absent then Goes(s.(lock := Owned(p)), p, Claimed) else Goes(s, p, Looking)
    case Look => Judged(s, p, s.lock, false)
    case Gate => Judged(s, p, s.lock, true)
    case ReadFile => Goes(s, p, Reading(s.lock, At(s, p) == Bidding))
    case Judge => Judged(s, p, At(s, p).seen, At(s, p).gate)
    case Rename => Goes(s.(lock := Owned(p)), p, Settling)
    case RenameFails(retry) => Goes(s, p, if retry then Bidding else Failing)
    case Verify => Goes(s, p, if s.lock == Owned(p) then Verified else Failing)
    case List => Goes(s, p, Listed(s.watches))
    case Decide => Goes(s, p, if (At(s, p).watchers - {p}) * s.alive == {} then Claimed else Settling)
    case Unwatch => Goes(s.(watches := s.watches - {p}), p, if At(s, p) == Claimed then Holding else Idle)
    case Reap(dead) => s.(watches := s.watches - {dead})
    case Renew => s.(lock := Owned(p))
    case BeginRelease => Goes(s, p, if s.lock == Owned(p) then Releasing else Idle)
    case Unlink => Goes(s.(lock := Absent), p, Idle)
    case ReleaseAtExit => Goes(s.(lock := if s.lock == Owned(p) then Absent else s.lock), p, Idle)
    case Die => s.(alive := s.alive - {p})
  }

  predicate HoldsLock(phase: Phase) { phase == Claimed || phase == Holding || phase == Releasing }

  predicate InAttempt(phase: Phase) { phase != Idle && phase != Holding && phase != Releasing }

  /** The bid has replaced the corpse and the attempt has not ended. */
  predicate HasRenamed(phase: Phase) { phase == Settling || phase == Verified || phase.Listed? }

  predicate MayTake(phase: Phase) { phase == Renaming || HasRenamed(phase) }

  ghost predicate Holder(s: State, p: Pid) { p in s.alive && HoldsLock(At(s, p)) }

  /** The two things the protocol relies on: no contender dies between its rename and the end of its
      attempt, and an inspection reads the file and asks for the owner in one step. */
  predicate Orderly(s: State, p: Pid, a: Action) {
    && (a == Die ==> !HasRenamed(At(s, p)))
    && a != ReadFile
  }

  /** Any lock file left behind, nobody in an attempt. */
  predicate Init(s: State) { s.phases == map[] }

  datatype Move = Move(pid: Pid, action: Action)

  ghost predicate IsRun(states: seq<State>, moves: seq<Move>) {
    && |states| == |moves| + 1
    && Init(states[0])
    && forall i :: 0 <= i < |moves| ==>
         Enabled(states[i], moves[i].pid, moves[i].action)
           && states[i + 1] == Step(states[i], moves[i].pid, moves[i].action)
  }

  ghost predicate IsOrderlyRun(states: seq<State>, moves: seq<Move>) {
    && IsRun(states, moves)
    && forall i :: 0 <= i < |moves| ==> Orderly(states[i], moves[i].pid, moves[i].action)
  }

  // ---- The invariant -----------------------------------------------------------------------

  /** What process `p`, being alive, can rely on. */
  ghost predicate Safe(s: State, p: Pid) {
    && !At(s, p).Reading?
    && (InAttempt(At(s, p)) ==> p in s.watches)
    && (HoldsLock(At(s, p)) ==> s.lock == Owned(p) && forall q :: q in s.alive ==> !MayTake(At(s, q)))
    && (At(s, p) == Renaming ==> s.lock != Absent)
    && (HasRenamed(At(s, p)) ==> s.lock.Owned? && s.lock.pid in s.alive && HasRenamed(At(s, s.lock.pid)))
    && (At(s, p).Listed? ==> forall q :: q in s.alive && MayTake(At(s, q)) ==> q in At(s, p).watchers)
  }

  ghost predicate Inv(s: State) { forall p :: p in s.alive ==> Safe(s, p) }

  /** A claim is made only by the process the lock names, when nobody else may take the lock. */
  lemma ClaimIsAlone(s: State, p: Pid)
    requires Inv(s) && Enabled(s, p, Decide) && (At(s, p).watchers - {p}) * s.alive == {}
    ensures s.lock == Owned(p) && forall q :: q in s.alive && q != p ==> !MayTake(At(s, q))
  {
    assert Safe(s, p);
    forall q | q in s.alive && q != p ensures !MayTake(At(s, q)) {
      assert q !in (At(s, p).watchers - {p}) * s.alive;
    }
    assert MayTake(At(s, s.lock.pid));
  }

  lemma DecideKeeps(s: State, p: Pid, x: Pid)
    requires Inv(s) && Enabled(s, p, Decide) && x in s.alive
    ensures Safe(Step(s, p, Decide), x)
  {
    assert Safe(s, p) && Safe(s, x) && Safe(s, s.lock.pid);
    if (At(s, p).watchers - {p}) * s.alive == {} { ClaimIsAlone(s, p); }
  }

  /** The steps that write or remove the lock file. */
  predicate Writes(a: Action) { a == Link || a == Rename || a == Renew || a == Unlink || a == ReleaseAtExit }

  lemma OwnerIsSafe(s: State)
    requires Inv(s) && s.lock.Owned? && s.lock.pid in s.alive
    ensures Safe(s, s.lock.pid)
  {
  }

  /** A step that leaves the lock file keeps what the process that takes it relies on ... */
  lemma ReadKeepsOwn(s: State, p: Pid, a: Action)
    requires Inv(s) && Enabled(s, p, a) && Orderly(s, p, a) && a != Decide && a != Die && !Writes(a)
    ensures Safe(Step(s, p, a), p)
  {
    assert Safe(s, p);
    assert forall q :: q in s.alive && MayTake(At(s, q)) ==> Safe(s, q);
  }

  /** ... and so does one that writes it. */
  lemma WriteKeepsOwn(s: State, p: Pid, a: Action)
    requires Inv(s) && Enabled(s, p, a) && Orderly(s, p, a) && Writes(a)
    ensures Safe(Step(s, p, a), p)
  {
    assert Safe(s, p);
    forall q | q in s.alive && MayTake(At(s, q)) ensures a == Link ==> s.lock != Absent { assert Safe(s, q); }
  }

  lemma OthersStay(s: State, p: Pid, a: Action)
    requires Enabled(s, p, a)
    ensures forall q :: q != p ==> At(Step(s, p, a), q) == At(s, q)
  {
  }

  /** The same for what any other process relies on. */
  lemma ReadKeepsOther(s: State, p: Pid, a: Action, x: Pid)
    requires Inv(s) && Enabled(s, p, a) && Orderly(s, p, a) && a != Decide && a != Die && !Writes(a) && x in s.alive
      && x != p
    ensures Safe(Step(s, p, a), x)
  {
    assert Safe(s, p) && Safe(s, x);
    OthersStay(s, p, a);
  }

  lemma WriteKeepsOther(s: State, p: Pid, a: Action, x: Pid)
    requires Inv(s) && Enabled(s, p, a) && Orderly(s, p, a) && Writes(a) && x in s.alive && x != p
    ensures Safe(Step(s, p, a), x)
  {
    assert Safe(s, p) && Safe(s, x);
    if s.lock.Owned? && s.lock.pid in s.alive { OwnerIsSafe(s); }
    OthersStay(s, p, a);
  }

  lemma DieKeeps(s: State, p: Pid, x: Pid)
    requires Inv(s) && Enabled(s, p, Die) && Orderly(s, p, Die) && x in s.alive && x != p
    ensures Safe(Step(s, p, Die), x)
  {
    assert Safe(s, p) && Safe(s, x);
  }

  lemma StillAlive(s: State, p: Pid, a: Action)
    requires Enabled(s, p, a)
    ensures p in s.alive && Step(s, p, a).alive == if a == Die then s.alive - {p} else s.alive
  {
  }

  lemma StepKeeps(s: State, p: Pid, a: Action)
    requires Inv(s) && Enabled(s, p, a) && Orderly(s, p, a)
    ensures Inv(Step(s, p, a))
  {
    hide Safe, Enabled, Orderly;
    StillAlive(s, p, a);
    forall x | x in Step(s, p, a).alive ensures Safe(Step(s, p, a), x) {
      if a == Decide {
        DecideKeeps(s, p, x);
      } else if a == Die {
        DieKeeps(s, p, x);
      } else if x == p {
        if Writes(a) { WriteKeepsOwn(s, p, a); } else { ReadKeepsOwn(s, p, a); }
      } else {
        if Writes(a) { WriteKeepsOther(s, p, a, x); } else { ReadKeepsOther(s, p, a, x); }
      }
    }
  }

  lemma {:induction false} EveryStateInv(states: seq<State>, moves: seq<Move>, i: nat)
    requires IsOrderlyRun(states, moves) && i <= |moves|
    ensures Inv(states[i])
  {
    if i > 0 {
      EveryStateInv(states, moves, i - 1);
      assert states[i - 1 + 1] == Step(states[i - 1], moves[i - 1].pid, moves[i - 1].action);
      StepKeeps(states[i - 1], moves[i - 1].pid, moves[i - 1].action);
    }
  }

  // ---- Mutual exclusion --------------------------------------------------------------------

  /** In every orderly run at most one live process holds the lock, and the lock file names it. */
  lemma AtMostOneHolder(states: seq<State>, moves: seq<Move>, i: nat, p: Pid, q: Pid)
    requires IsOrderlyRun(states, moves) && i <= |moves|
    requires Holder(states[i], p) && Holder(states[i], q)
    ensures p == q && states[i].lock == Owned(p)
  {
    EveryStateInv(states, moves, i);
    assert Safe(states[i], p) && Safe(states[i], q);
  }

  /** Nobody takes the lock from a live holder: it stays the holder's until the holder itself unlinks
      it or dies. */
  lemma HolderKeepsTheLock(states: seq<State>, moves: seq<Move>, i: nat, p: Pid)
    requires IsOrderlyRun(states, moves) && i < |moves| && Holder(states[i], p)
    ensures states[i + 1].lock == Owned(p)
            || (moves[i].pid == p && moves[i].action in {Unlink, ReleaseAtExit, Die})
  {
    EveryStateInv(states, moves, i);
    assert Safe(states[i], p);
    var q := moves[i].pid;
    assert states[i + 1] == Step(states[i], q, moves[i].action);
    assert Safe(states[i], q);
  }

  // ---- Particular runs ---------------------------------------------------------------------

  datatype Trace = Trace(states: seq<State>, moves: seq<Move>)

  ghost predicate Runs(r: Trace) { IsRun(r.states, r.moves) }

  ghost function End(r: Trace): State
    requires Runs(r)
  {
    r.states[|r.states| - 1]
  }

  /** How many moves were not orderly. */
  function Flaws(r: Trace): nat
    decreases |r.moves|
  {
    if |r.states| != |r.moves| + 1 || r.moves == [] then 0
    else
      var n := |r.moves| - 1;
      Flaws(Trace(r.states[..n + 1], r.moves[..n])) + if Orderly(r.states[n], r.moves[n].pid, r.moves[n].action) then 0
        else 1
  }

  lemma Start(s: State) returns (r: Trace)
    requires Init(s)
    ensures Runs(r) && End(r) == s && Flaws(r) == 0
  {
    r := Trace([s], []);
  }

  lemma Then(r: Trace, p: Pid, a: Action) returns (r': Trace)
    requires Runs(r) && Enabled(End(r), p, a)
    ensures Runs(r') && End(r') == Step(End(r), p, a)
    ensures Flaws(r') == Flaws(r) + if Orderly(End(r), p, a) then 0 else 1
  {
    var s' := Step(End(r), p, a);
    hide Step, Enabled, Orderly;
    r' := Trace(r.states + [s'], r.moves + [Move(p, a)]);
    var n := |r.moves|;
    assert Trace(r'.states[..n + 1], r'.moves[..n]) == r;
  }

  /** A contender that finds a corpse gets past the gate. */
  lemma PassesGate(r: Trace, p: Pid) returns (r': Trace)
    requires Runs(r)
    requires var s := End(r); p in s.alive && At(s, p) == Idle && Corpse(s, s.lock)
    ensures Runs(r') && End(r') == Goes(End(r).(watches := End(r).watches + {p}), p, Renaming) && Flaws(r') == Flaws(r)
  {
    hide Runs, Flaws, End;
    r' := Then(r, p, Watch);
    r' := Then(r', p, Link);
    r' := Then(r', p, Look);
    r' := Then(r', p, Gate);
    assert End(r').phases == End(r).phases[p := Renaming];
  }

  /** It then claims the lock, if it goes on alone. */
  lemma TakesOver(r: Trace, p: Pid) returns (r': Trace)
    requires Runs(r)
    requires var s := End(r); p in s.alive && At(s, p) == Renaming && (s.watches - {p}) * s.alive == {}
    ensures Runs(r') && End(r') == Goes(End(r).(lock := Owned(p)), p, Claimed) && Flaws(r') == Flaws(r)
  {
    hide Runs, Flaws, End;
    r' := Then(r, p, Rename);
    r' := Then(r', p, Verify);
    r' := Then(r', p, List);
    r' := Then(r', p, Decide);
    assert End(r').phases == End(r).phases[p := Claimed];
  }

  /** A lock nobody has is taken by linking it. */
  lemma LinksFree(r: Trace, p: Pid) returns (r': Trace)
    requires Runs(r)
    requires var s := End(r); p in s.alive && At(s, p) == Idle && s.lock == Absent && p !in s.watches
    ensures Runs(r') && End(r') == Goes(End(r).(lock := Owned(p)), p, Holding) && Flaws(r') == Flaws(r)
  {
    hide Runs, Flaws, End;
    r' := Then(r, p, Watch);
    r' := Then(r', p, Link);
    r' := Then(r', p, Unwatch);
    assert End(r').phases == End(r).phases[p := Holding];
    assert End(r').watches == End(r).watches;
  }

  /** From any state of any run: with no other live watcher a contender that goes on alone gets a lock
      that is free or a corpse. */
  lemma StaleLockIsTaken(r: Trace, p: Pid) returns (r': Trace)
    requires Runs(r)
    requires var s := End(r);
             && p in s.alive && At(s, p) == Idle && !NamesAlive(s, s.lock)
             && p !in s.watches && s.watches * s.alive == {}
    ensures Runs(r') && Holder(End(r'), p) && Flaws(r') == Flaws(r)
  {
    hide Runs, Flaws, End;
    if End(r).lock == Absent {
      r' := LinksFree(r, p);
    } else {
      r' := PassesGate(r, p);
      r' := TakesOver(r', p);
    }
  }

  /** A holder lets go: it looks whether the file is still its own, and removes it. */
  lemma LetsGo(r: Trace, p: Pid) returns (r': Trace)
    requires Runs(r) && p in End(r).alive && At(End(r), p) == Holding && End(r).lock == Owned(p)
    ensures Runs(r') && End(r') == Goes(End(r).(lock := Absent), p, Idle) && Flaws(r') == Flaws(r)
  {
    hide Runs, Flaws, End;
    r' := Then(r, p, BeginRelease);
    r' := Then(r', p, Unlink);
    assert End(r').phases == End(r).phases[p := Idle];
  }

  /** A released lock is free, though its last owner lives on: the next contender that goes on alone
      gets it. The same when it is released at exit. */
  lemma ReleasedLockIsTaken(r: Trace, p: Pid, q: Pid, atExit: bool) returns (r': Trace)
    requires Runs(r) && p != q
    requires var s := End(r);
             && p in s.alive && At(s, p) == Holding && s.lock == Owned(p)
             && q in s.alive && At(s, q) == Idle && q !in s.watches && s.watches * s.alive == {}
    ensures Runs(r') && Flaws(r') == Flaws(r)
    ensures var s' := End(r');
            p in s'.alive && At(s', p) == Idle && Holder(s', q) && At(s', q) == Holding && s'.lock == Owned(q)
  {
    hide Runs, Flaws, End;
    if atExit { r' := Then(r, p, ReleaseAtExit); } else { r' := LetsGo(r, p); }
    assert At(End(r'), p) == Idle && At(End(r'), q) == Idle;
    r' := LinksFree(r', q);
  }

  /** A holder whose file has been replaced leaves it alone when it lets go. */
  lemma ForeignFileIsLeft(r: Trace, p: Pid, atExit: bool) returns (r': Trace)
    requires Runs(r) && p in End(r).alive && At(End(r), p) == Holding && End(r).lock != Owned(p)
    ensures Runs(r') && End(r') == Goes(End(r), p, Idle) && Flaws(r') == Flaws(r)
  {
    hide Runs, Flaws, End;
    r' := Then(r, p, if atExit then ReleaseAtExit else BeginRelease);
  }

  /** A contender that meets a live owner gives up and leaves everything as it was. */
  lemma LiveLockIsRespected(r: Trace, p: Pid) returns (r': Trace)
    requires Runs(r)
    requires var s := End(r); p in s.alive && At(s, p) == Idle && NamesAlive(s, s.lock) && p !in s.watches
    ensures Runs(r') && End(r') == Goes(End(r), p, Idle) && Flaws(r') == Flaws(r)
  {
    hide Runs, Flaws, End;
    r' := Then(r, p, Watch);
    r' := Then(r', p, Link);
    r' := Then(r', p, Look);
    r' := Then(r', p, Unwatch);
    assert End(r').phases == End(r).phases[p := Idle];
    assert End(r').watches == End(r).watches;
  }

  /** A rename that fails and may be tried again goes back through the gate: it meets the same corpse,
      or yields to an owner that has come in between. */
  lemma RetryMeetsTheGate(r: Trace, p: Pid) returns (r': Trace)
    requires Runs(r) && p in End(r).alive && At(End(r), p) == Renaming && End(r).lock != Absent
    ensures Runs(r') && Flaws(r') == Flaws(r)
    ensures End(r') == Goes(End(r), p, if NamesAlive(End(r), End(r).lock) then Failing else Renaming)
  {
    hide Runs, Flaws, End;
    r' := Then(r, p, RenameFails(true));
    r' := Then(r', p, Gate);
    assert End(r').phases == End(r).phases[p := At(End(r'), p)];
  }

  /** Of two bids for the same corpse the later rename wins: the earlier bidder finds that out, gives
      up, and the later one gets the lock after waiting for it. */
  lemma LaterBidWins(r: Trace, p: Pid, q: Pid) returns (r': Trace)
    requires Runs(r) && p != q
    requires var s := End(r);
             && {p, q} <= s.alive && At(s, p) == Renaming && At(s, q) == Renaming
             && {p, q} <= s.watches && (s.watches - {p, q}) * s.alive == {}
    ensures Runs(r') && Flaws(r') == Flaws(r)
    ensures var s' := End(r'); At(s', p) == Idle && At(s', q) == Holding && s'.lock == Owned(q)
    ensures End(r').alive == End(r).alive && End(r').watches == End(r).watches - {p, q}
  {
    hide Runs, Flaws, End;
    r' := Then(r, p, Rename);
    r' := Then(r', q, Rename);
    r' := WaitsFor(r', p, q);
    r' := Then(r', p, Unwatch);
    r' := Then(r', q, Verify);
    r' := Then(r', q, List);
    r' := Then(r', q, Decide);
    r' := Then(r', q, Unwatch);
    assert End(r').watches == End(r).watches - {p, q};
  }

  /** While a rival still watches, the one the file names settles again; the rival gives up. */
  lemma WaitsFor(r: Trace, p: Pid, q: Pid) returns (r': Trace)
    requires Runs(r) && p != q
    requires var s := End(r);
             && {p, q} <= s.alive && At(s, p) == Settling && At(s, q) == Settling && s.lock == Owned(q)
             && p in s.watches
    ensures Runs(r') && Flaws(r') == Flaws(r) && End(r') == Goes(Goes(End(r), q, Settling), p, Failing)
  {
    hide Runs, Flaws, End;
    var s := End(r);
    r' := Then(r, q, Verify);
    r' := Then(r', q, List);
    assert p in (At(End(r'), q).watchers - {q}) * s.alive;
    r' := Then(r', q, Decide);
    r' := Then(r', p, Verify);
    assert End(r').phases == s.phases[q := Settling][p := Failing];
  }

  /** A late bid replaces the file of a contender that has verified it, and its owner dies. */
  lemma ReplacedAfterVerify(r: Trace, p: Pid, q: Pid) returns (r': Trace)
    requires Runs(r) && p != q
    requires var s := End(r);
             {p, q} <= s.alive && At(s, p) == Renaming && At(s, q) == Renaming && s.watches <= {p, q}
    ensures Runs(r') && Flaws(r') == Flaws(r) + 1
    ensures var s, s' := End(r), End(r');
            && s'.lock == Owned(q) && s'.alive == s.alive - {q} && s'.watches == s.watches - {p} && At(s', p) == Holding
            && forall x :: x != p && x != q ==> At(s', x) == At(s, x)
  {
    hide Runs, Flaws, End;
    r' := Then(r, p, Rename);
    r' := Then(r', p, Verify);
    r' := Then(r', q, Rename);
    r' := Then(r', q, Die);
    r' := Then(r', p, List);
    r' := Then(r', p, Decide);
    r' := Then(r', p, Unwatch);
  }

  /** One contender that dies after its rename is enough for two holders: it leaves a corpse in place
      of the lock of a contender that goes on to hold it. */
  lemma DeathAfterRenameBreaksExclusion() returns (r: Trace)
    ensures Runs(r) && Flaws(r) == 1 && Holder(End(r), 1) && Holder(End(r), 3)
  {
    hide Runs, Flaws, End;
    r := Start(State(Garbage, {1, 2, 3}, {}, map[]));
    r := PassesGate(r, 1);
    r := PassesGate(r, 2);
    assert At(End(r), 1) == Renaming && At(End(r), 2) == Renaming;
    r := ReplacedAfterVerify(r, 1, 2);
    r := PassesGate(r, 3);
    r := TakesOver(r, 3);
  }

  /** If an inspection may be interrupted between reading the file and asking for its owner, two
      owners that release and exit in those gaps are enough for two holders. */
  lemma SplitInspectionBreaksExclusion() returns (r: Trace)
    ensures Runs(r) && Flaws(r) == 2 && Holder(End(r), 1) && Holder(End(r), 4)
  {
    hide Runs, Flaws, End;
    r := Start(State(Absent, {1, 2, 3, 4}, {}, map[]));
    r := LinksFree(r, 2);
    r := Then(r, 1, Watch);
    r := Then(r, 1, Link);
    r := OwnerLeavesWhileRead(r, 1, 2, 3);
    assert At(End(r), 1) == Bidding;
    r := OwnerLeavesWhileRead(r, 1, 3, 4);
    r := TakesOver(r, 1);
  }

  /** While `p` inspects, the owner it read about leaves and `next` takes the free lock. */
  lemma OwnerLeavesWhileRead(r: Trace, p: Pid, owner: Pid, next: Pid) returns (r': Trace)
    requires Runs(r) && p != owner && p != next && owner != next
    requires var s := End(r);
             && {p, owner, next} <= s.alive && (At(s, p) == Looking || At(s, p) == Bidding)
             && At(s, owner) == Holding && s.lock == Owned(owner) && At(s, next) == Idle && next !in s.watches
    ensures Runs(r') && Flaws(r') == Flaws(r) + 1
    ensures var s, s' := End(r), End(r');
            && s'.lock == Owned(next) && s'.alive == s.alive - {owner} && s'.watches == s.watches
              && At(s', next) == Holding
            && At(s', p) == (if At(s, p) == Looking then Bidding else Renaming)
            && forall q :: q != p && q != owner && q != next ==> At(s', q) == At(s, q)
  {
    hide Runs, Flaws, End;
    r' := Then(r, p, ReadFile);
    r' := Then(r', owner, ReleaseAtExit);
    r' := Then(r', owner, Die);
    r' := LinksFree(r', next);
    r' := Then(r', p, Judge);
  }
}
