/**
 * The process state store of src/state.rs: every pid maps to the history of
 * the process generations observed under it, oldest first, so that a reused
 * pid gets a new generation instead of overwriting the old one. The pure
 * functions on a Directory give the meaning of the store; the class
 * ProcessStateStore updates its map in place and is proved against them.
 */
module State {
  import opened Wrappers

  type uint8 = x: int | 0 <= x < 0x100
  type int32 = x: int | -0x8000_0000 <= x < 0x8000_0000
  type uint64 = x: int | 0 <= x < 0x1_0000_0000_0000_0000

  /** A `nix::unistd::Pid`, which wraps a `pid_t`. */
  type Pid = int32

  /** A `CString`: bytes with no NUL among them. */
  type CString = s: seq<uint8> | forall i :: 0 <= i < |s| ==> s[i] != 0

  datatype ProcessStatus = Running | Exited(code: int32)

  datatype ExecData = ExecData(filename: CString, argv: seq<CString>, envp: seq<CString>)

  /** One generation of one process. */
  datatype ProcessState = ProcessState(
    pid: Pid,
    status: ProcessStatus,
    startTime: uint64,
    argv: seq<CString>,
    comm: string,
    preexecve: bool,
    execData: Option<ExecData>)

  /**
   * `ProcessState::new`, with the outcomes of reading the process's name and
   * its argument vector passed in. The name is read first, so its error wins.
   */
  function NewProcessState<Err>(pid: Pid, startTime: uint64, comm: Result<string, Err>,
                                argv: Result<seq<CString>, Err>): (r: Result<ProcessState, Err>)
    ensures r.Success? <==> comm.Success? && argv.Success?
    ensures r.Success? ==>
              && r.value.pid == pid && r.value.startTime == startTime
              && r.value.status == Running && r.value.preexecve && r.value.execData == None
              && r.value.comm == comm.value && r.value.argv == argv.value
    ensures comm.Failure? ==> r == Failure(comm.error)
    ensures comm.Success? && argv.Failure? ==> r == Failure(argv.error)
  {
    match comm
    case Failure(e) => Failure(e)
    case Success(name) =>
      match argv
      case Failure(e) => Failure(e)
      case Success(args) =>
        Success(ProcessState(pid, Running, startTime, args, name, true, None))
  }

  /** The store's map: pid to its generations, oldest first. */
  type Directory = map<Pid, seq<ProcessState>>

  /** The generations recorded for `pid`, none if it was never inserted. */
  function History(d: Directory, pid: Pid): seq<ProcessState> {
    if pid in d then d[pid] else []
  }

  /** The store's invariant: no pid maps to an empty history. */
  ghost predicate NonEmptyHistories(d: Directory) {
    forall p :: p in d ==> d[p] != []
  }

  /** `insert`: append the state to its pid's history, creating the history if absent. */
  function Inserted(d: Directory, s: ProcessState): (r: Directory)
    ensures History(r, s.pid) == History(d, s.pid) + [s]
    ensures forall p :: p != s.pid ==> History(r, p) == History(d, p)
    ensures r.Keys == d.Keys + {s.pid}
    ensures NonEmptyHistories(d) ==> NonEmptyHistories(r)
  {
    d[s.pid := History(d, s.pid) + [s]]
  }

  /** What `get_current_mut` finds: the newest generation of `pid`. */
  function Current(d: Directory, pid: Pid): (r: Option<ProcessState>)
    ensures r.Some? <==> History(d, pid) != []
    ensures r.Some? ==> r.value == History(d, pid)[|History(d, pid)| - 1]
    ensures NonEmptyHistories(d) ==> (r.None? <==> pid !in d)
  {
    if pid in d && d[pid] != [] then Some(d[pid][|d[pid]| - 1]) else None
  }

  /** Changing the state `get_current_mut` hands out to `f` of itself. */
  function UpdatedCurrent(d: Directory, pid: Pid, f: ProcessState -> ProcessState): (r: Directory)
    ensures r.Keys == d.Keys
    ensures forall p :: p != pid ==> History(r, p) == History(d, p)
    ensures |History(r, pid)| == |History(d, pid)|
    ensures forall k :: 0 <= k < |History(d, pid)| - 1 ==> History(r, pid)[k] == History(d, pid)[k]
    ensures Current(r, pid) == if Current(d, pid).Some? then Some(f(Current(d, pid).value)) else None
    ensures NonEmptyHistories(d) ==> NonEmptyHistories(r)
  {
    if pid in d && d[pid] != [] then
      var h := d[pid];
      d[pid := h[|h| - 1 := f(h[|h| - 1])]]
    else d
  }

  /**
   * Pid reuse: after inserting `a` and then `b` under the same pid, `b` is
   * current and `a` stays in the history just before it.
   */
  lemma PidReuse(d: Directory, a: ProcessState, b: ProcessState)
    requires a.pid == b.pid
    ensures var r := Inserted(Inserted(d, a), b);
            && Current(r, a.pid) == Some(b)
            && History(r, a.pid) == History(d, a.pid) + [a, b]
            && History(r, a.pid)[|History(d, a.pid)|] == a
  {
    assert History(d, a.pid) + [a] + [b] == History(d, a.pid) + [a, b];
  }

  /** The directory after inserting `states` in order into an empty store. */
  function Replay(states: seq<ProcessState>): Directory
    decreases |states|
  {
    if states == [] then map[] else Inserted(Replay(states[..|states| - 1]), states[|states| - 1])
  }

  /** The states observed under `pid`, in observation order. */
  function Generations(states: seq<ProcessState>, pid: Pid): (r: seq<ProcessState>)
    ensures r == [] <==> forall k :: 0 <= k < |states| ==> states[k].pid != pid
    decreases |states|
  {
    if states == [] then []
    else
      var rest := Generations(states[..|states| - 1], pid);
      assert forall k :: 0 <= k < |states| - 1 ==> states[..|states| - 1][k] == states[k];
      if states[|states| - 1].pid == pid then rest + [states[|states| - 1]] else rest
  }

  /**
   * Replaying observations gives each pid exactly its generations in
   * observation order, and never an empty history.
   */
  lemma {:induction false} ReplayHistories(states: seq<ProcessState>, pid: Pid)
    ensures History(Replay(states), pid) == Generations(states, pid)
    ensures NonEmptyHistories(Replay(states))
    decreases |states|
  {
    if states != [] {
      ReplayHistories(states[..|states| - 1], pid);
    }
  }

  /** The position of the latest observation of `pid`, or -1 if there is none. */
  function LatestIndex(states: seq<ProcessState>, pid: Pid): (k: int)
    ensures -1 <= k < |states|
    ensures k >= 0 ==> states[k].pid == pid
    ensures forall j :: k < j < |states| ==> states[j].pid != pid
    decreases |states|
  {
    if states == [] then -1
    else if states[|states| - 1].pid == pid then |states| - 1
    else
      var k := LatestIndex(states[..|states| - 1], pid);
      assert forall j :: k < j < |states| - 1 ==> states[..|states| - 1][j] == states[j];
      k
  }

  /** The last of a pid's generations is its latest observation. */
  lemma {:induction false} LastGeneration(states: seq<ProcessState>, pid: Pid)
    ensures var g := Generations(states, pid);
            g != [] ==> LatestIndex(states, pid) >= 0 && g[|g| - 1] == states[LatestIndex(states, pid)]
    decreases |states|
  {
    if states != [] && states[|states| - 1].pid != pid {
      var prefix := states[..|states| - 1];
      LastGeneration(prefix, pid);
      var k := LatestIndex(prefix, pid);
      if k >= 0 {
        assert prefix[k] == states[k];
      }
    }
  }

  /**
   * After replaying observations, `get_current_mut` finds nothing for a pid
   * that was never observed, and otherwise the pid's latest observation.
   */
  lemma ReplayCurrent(states: seq<ProcessState>, pid: Pid)
    ensures Current(Replay(states), pid).None? <==> forall k :: 0 <= k < |states| ==> states[k].pid != pid
    ensures Current(Replay(states), pid) ==
              if LatestIndex(states, pid) < 0 then None else Some(states[LatestIndex(states, pid)])
  {
    ReplayHistories(states, pid);
    LastGeneration(states, pid);
  }

  /** `ProcessStateStore`. */
  class ProcessStateStore {
    var processes: Directory

    ghost predicate Valid()
      reads this
    {
      NonEmptyHistories(processes)
    }

    /** `ProcessStateStore::new` */
    constructor ()
      ensures processes == map[]
      ensures Valid()
    {
      processes := map[];
    }

    method Insert(state: ProcessState)
      modifies this
      ensures processes == Inserted(old(processes), state)
      ensures old(Valid()) ==> Valid()
    {
      var history := if state.pid in processes then processes[state.pid] else [];
      processes := processes[state.pid := history + [state]];
    }

    /** The reading half of `get_current_mut`: the newest generation of `pid`, if any. */
    method GetCurrent(pid: Pid) returns (r: Option<ProcessState>)
      ensures r.Some? <==> pid in processes && processes[pid] != []
      ensures r.Some? ==> r.value == processes[pid][|processes[pid]| - 1]
      ensures Valid() ==> (r.None? <==> pid !in processes)
    {
      if pid in processes {
        var history := processes[pid];
        if |history| > 0 {
          return Some(history[|history| - 1]);
        }
      }
      return None;
    }

    /**
     * The writing half of `get_current_mut`: replace the newest generation of
     * `pid` by `f` of it; says whether there was one.
     */
    method UpdateCurrent(pid: Pid, f: ProcessState -> ProcessState) returns (found: bool)
      modifies this
      ensures found == Current(old(processes), pid).Some?
      ensures processes == UpdatedCurrent(old(processes), pid, f)
      ensures old(Valid()) ==> Valid()
    {
      var current := GetCurrent(pid);
      match current {
        case Some(s) =>
          var history := processes[pid];
          processes := processes[pid := history[|history| - 1 := f(s)]];
          found := true;
        case None =>
          found := false;
      }
    }
  }
}
