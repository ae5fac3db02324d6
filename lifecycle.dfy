/**
 * Runs of the server: every handler of app.js as an event, the states a run
 * from an empty table can reach, and what holds in all of them.
 */
module Lifecycle {
  import opened Wrappers
  import opened JavaNames
  import opened Registry

  /** Something the server reacts to. */
  datatype Event =
    | Connected(id: SessionId)
    | Received(id: SessionId, msg: string)
    | Closed(id: SessionId)
    | RunRequested(sessionId: Option<string>, files: Option<seq<SourceFile>>, writeFailsAt: Option<nat>)
    | CompileDone(id: SessionId, mainFileName: string, outcome: CompileOutcome)
    | ProcessData(pid: Pid, data: string)
    | ProcessClosed(pid: Pid, code: Option<int>)
    | SweepTick(now: int)

  /**
   * One handler; true in the second part when it throws outside a try block.
   * Events that cannot happen change nothing: a connection under an
   * inherited name (generateSessionId never yields one), and output or exit
   * of a process that was never spawned. Messages and closes are taken as
   * the code takes them, for every id.
   */
  function Apply(s: State, e: Event): (r: (State, bool))
    ensures r.1 ==> e.CompileDone? || e.ProcessClosed?
    ensures r.0.root == s.root
  {
    match e
    case Connected(id) => if id !in InheritedNames then (Connect(s, id), false) else (s, false)
    case Received(id, msg) => (Message(s, id, msg), false)
    case Closed(id) => (Close(s, id), false)
    case RunRequested(sessionId, files, writeFailsAt) => (Submit(s, sessionId, files, writeFailsAt).0, false)
    case CompileDone(id, mainFileName, outcome) =>
      var r := CompileFinished(s, id, mainFileName, outcome);
      (r.0, r.1 == Crashed)
    case ProcessData(pid, data) => if pid < |s.spawned| then (ProcessOutput(s, pid, data), false) else (s, false)
    case ProcessClosed(pid, code) => if pid < |s.spawned| then ProcessExit(s, pid, code) else (s, false)
    case SweepTick(now) => (Sweep(s, now), false)
  }

  /** The events in order, up to the first one that ends the server. */
  function Run(s: State, trace: seq<Event>): State
    decreases |trace|
  {
    if trace == [] then s
    else
      var next := Apply(s, trace[0]);
      if next.1 then next.0 else Run(next.0, trace[1..])
  }

  /** The state after `trace`, starting from an empty table. */
  function Replay(root: string, trace: seq<Event>): State
  {
    Run(Init(root), trace)
  }

  /** Process `p` was spawned for `owner`. */
  predicate StartedFor(s: State, p: Pid, owner: string)
  {
    p < |s.spawned| && s.spawned[p].owner == owner
  }

  /** Process `p` was spawned for `owner` and is still running. */
  predicate RunsFor(s: State, p: Pid, owner: string)
  {
    StartedFor(s, p, owner) && s.spawned[p].running
  }

  /**
   * The bookkeeping every reachable state keeps: no record sits under an
   * inherited name; a handle, on a record or on an inherited object, names
   * a running process started under that id; a handle on a child object
   * sits on a child started for "__proto__" and names one started for
   * "javaProcess" (which may have exited, when a later "__proto__" run has
   * replaced the child Object.prototype holds); and a directory belongs to
   * a live session or to a name a /run request can reach only through
   * Object.prototype.
   */
  predicate Valid(s: State)
  {
    && s.sessions.Keys !! InheritedNames
    && (forall id :: id in s.sessions && s.sessions[id].javaProcess.Some? ==>
          RunsFor(s, s.sessions[id].javaProcess.value, id))
    && (forall n :: n in s.inherited ==> n in InheritedNames && RunsFor(s, s.inherited[n], n))
    && (forall p :: p in s.childHandles ==>
          StartedFor(s, p, "__proto__") && StartedFor(s, s.childHandles[p], HandleProperty))
    && s.workspaces.Keys <= s.sessions.Keys + InheritedNames + {HandleProperty}
  }

  /** No session has a `lastActive` time: no live handler ever sets one. */
  predicate NeverActive(s: State)
  {
    forall id :: id in s.sessions ==> s.sessions[id].lastActive.None?
  }

  /** Every handler keeps the bookkeeping invariant. */
  lemma ApplyKeepsValid(s: State, e: Event)
    requires Valid(s)
    ensures Valid(Apply(s, e).0)
  {
    match e
    case Connected(id) =>
      if id !in InheritedNames {
        ConnectKeepsValid(s, id);
      }
    case Received(id, msg) => MessageKeepsValid(s, id, msg);
    case Closed(id) => CloseKeepsValid(s, id);
    case RunRequested(sessionId, files, writeFailsAt) => SubmitKeepsValid(s, sessionId, files, writeFailsAt);
    case CompileDone(id, mainFileName, outcome) => CompileFinishedKeepsValid(s, id, mainFileName, outcome);
    case ProcessData(pid, data) =>
      if pid < |s.spawned| {
        ProcessOutputKeepsValid(s, pid, data);
      }
    case ProcessClosed(pid, code) =>
      if pid < |s.spawned| {
        ProcessExitKeepsValid(s, pid, code);
      }
    case SweepTick(now) => SweepKeepsValid(s, now);
  }

  lemma ConnectKeepsValid(s: State, id: SessionId)
    requires Valid(s) && id !in InheritedNames
    ensures Valid(Connect(s, id))
  {
  }

  lemma MessageKeepsValid(s: State, id: SessionId, msg: string)
    requires Valid(s)
    ensures Valid(Message(s, id, msg))
  {
    SameTablesKeepValid(s, Message(s, id, msg));
  }

  /** The invariant reads only the table, the handles, the directories and the spawns. */
  lemma SameTablesKeepValid(s: State, r: State)
    requires Valid(s)
    requires r.sessions == s.sessions && r.inherited == s.inherited && r.childHandles == s.childHandles
    requires r.workspaces == s.workspaces && r.spawned == s.spawned
    ensures Valid(r)
  {
  }

  lemma CloseKeepsValid(s: State, id: SessionId)
    requires Valid(s)
    ensures Valid(Close(s, id))
  {
    var r := Close(s, id);
    if Resolves(s, id) {
      assert r.sessions == s.sessions - {id} && r.workspaces == s.workspaces - {id};
      assert r.inherited == s.inherited && r.childHandles == s.childHandles && r.spawned == s.spawned;
      ShrinkKeepsValid(s, r);
    }
  }

  /**
   * Dropping sessions keeps the invariant as long as the directory of a
   * dropped session goes with it.
   */
  lemma ShrinkKeepsValid(s: State, r: State)
    requires Valid(s)
    requires forall id :: id in r.sessions ==> id in s.sessions && r.sessions[id] == s.sessions[id]
    requires forall id :: id in r.workspaces ==> id in s.workspaces && (id in s.sessions ==> id in r.sessions)
    requires r.inherited == s.inherited && r.childHandles == s.childHandles && r.spawned == s.spawned
    ensures Valid(r)
  {
  }

  lemma SubmitKeepsValid(s: State, sessionId: Option<string>, files: Option<seq<SourceFile>>, writeFailsAt: Option<nat>)
    requires Valid(s)
    ensures Valid(Submit(s, sessionId, files, writeFailsAt).0)
  {
    var r := Submit(s, sessionId, files, writeFailsAt).0;
    assert r.sessions == s.sessions && r.inherited == s.inherited && r.childHandles == s.childHandles;
    assert r.spawned == s.spawned;
    if KnownSession(s, sessionId) && HasFiles(files) {
      SubmitWrites(s, sessionId, files, writeFailsAt);
      assert r.workspaces.Keys <= s.workspaces.Keys + {sessionId.value};
      NewDirKeepsValid(s, r, sessionId.value);
    } else {
      SameTablesKeepValid(s, r);
    }
  }

  /** A new directory under a name that resolves keeps the invariant. */
  lemma NewDirKeepsValid(s: State, r: State, id: SessionId)
    requires Valid(s) && Resolves(s, id)
    requires r.sessions == s.sessions && r.inherited == s.inherited && r.childHandles == s.childHandles
    requires r.spawned == s.spawned && r.workspaces.Keys <= s.workspaces.Keys + {id}
    ensures Valid(r)
  {
  }

  lemma CompileFinishedKeepsValid(s: State, id: SessionId, mainFileName: string, outcome: CompileOutcome)
    requires Valid(s)
    ensures Valid(CompileFinished(s, id, mainFileName, outcome).0)
  {
    match outcome
    case CompileFailed(stderr) =>
      var r := Broadcast(s, id, Diagnostics.CompileErrorMessage(WorkspaceDir(s.root, id), stderr));
      SameTablesKeepValid(s, r);
    case Compiled =>
      LaunchKeepsValid(s, id, mainFileName);
  }

  lemma LaunchKeepsValid(s: State, id: SessionId, mainFileName: string)
    requires Valid(s)
    ensures Valid(Launch(s, id, mainFileName).0)
  {
    var r := Launch(s, id, mainFileName).0;
    var pid := |s.spawned|;
    assert |r.spawned| == pid + 1 && r.spawned[..pid] == s.spawned;
    assert RunsFor(r, pid, id);
    forall other | other in r.sessions && r.sessions[other].javaProcess.Some?
      ensures RunsFor(r, r.sessions[other].javaProcess.value, other)
    {
      if other != id || id !in s.sessions {
        assert r.sessions[other] == s.sessions[other];
        SpawnKeepsStarted(s, r, s.sessions[other].javaProcess.value, other);
      }
    }
    forall n | n in r.inherited
      ensures RunsFor(r, r.inherited[n], n)
    {
      if n != id || id in s.sessions || id !in InheritedNames {
        assert r.inherited[n] == s.inherited[n];
        SpawnKeepsStarted(s, r, s.inherited[n], n);
      }
    }
    forall p | p in r.childHandles
      ensures StartedFor(r, p, "__proto__") && StartedFor(r, r.childHandles[p], HandleProperty)
    {
      if p in s.childHandles && r.childHandles[p] == s.childHandles[p] {
        SpawnKeepsStarted(s, r, s.childHandles[p], HandleProperty);
      } else {
        assert "__proto__" in s.inherited && p == s.inherited["__proto__"];
      }
      SpawnKeepsStarted(s, r, p, "__proto__");
    }
  }

  /** A spawn leaves every earlier process as it was. */
  lemma SpawnKeepsStarted(s: State, r: State, p: Pid, owner: string)
    requires StartedFor(s, p, owner)
    requires |r.spawned| == |s.spawned| + 1 && r.spawned[..|s.spawned|] == s.spawned
    ensures StartedFor(r, p, owner) && r.spawned[p] == s.spawned[p]
  {
    assert r.spawned[p] == r.spawned[..|s.spawned|][p];
  }

  lemma ProcessOutputKeepsValid(s: State, pid: Pid, data: string)
    requires Valid(s) && pid < |s.spawned|
    ensures Valid(ProcessOutput(s, pid, data))
  {
    SameTablesKeepValid(s, ProcessOutput(s, pid, data));
  }

  lemma SweepKeepsValid(s: State, now: int)
    requires Valid(s)
    ensures Valid(Sweep(s, now))
  {
    var r := Sweep(s, now);
    assert r.inherited == s.inherited && r.childHandles == s.childHandles && r.spawned == s.spawned;
    ShrinkKeepsValid(s, r);
  }

  /** No handler sets `lastActive`. */
  lemma ApplyKeepsNeverActive(s: State, e: Event)
    requires NeverActive(s)
    ensures NeverActive(Apply(s, e).0)
  {
  }

  /** The tables after a process exit, case by case. */
  lemma ProcessExitTables(s: State, pid: Pid, code: Option<int>)
    requires pid < |s.spawned|
    ensures var r := ProcessExit(s, pid, code).0;
      var owner := s.spawned[pid].owner;
      && r.spawned == s.spawned[pid := s.spawned[pid].(running := false)]
      && r.root == s.root && r.workspaces == s.workspaces && r.stdin == s.stdin
      && r.outbox == Broadcast(s, owner, ExitNotice(code)).outbox
      && r.sessions == (if owner in s.sessions then s.sessions[owner := s.sessions[owner].(javaProcess := None)] else s.sessions)
      && r.inherited == (if owner !in s.sessions && owner in InheritedNames then s.inherited - {owner} else s.inherited)
      && r.childHandles == (if owner !in s.sessions && owner !in InheritedNames && Resolves(s, owner)
           then s.childHandles - {SharedProcess(s).value} else s.childHandles)
  {
  }

  /** A process exit leaves no handle pointing at the exited process. */
  lemma ProcessExitKeepsValid(s: State, pid: Pid, code: Option<int>)
    requires Valid(s) && pid < |s.spawned|
    ensures Valid(ProcessExit(s, pid, code).0)
  {
    ProcessExitTables(s, pid, code);
    StopKeepsValid(s, ProcessExit(s, pid, code).0, pid);
  }

  /**
   * Stopping process `pid` and removing its owner's handle, wherever that
   * handle sits, keeps the invariant.
   */
  lemma StopKeepsValid(s: State, r: State, pid: Pid)
    requires Valid(s) && pid < |s.spawned|
    requires var owner := s.spawned[pid].owner;
      && r.spawned == s.spawned[pid := s.spawned[pid].(running := false)]
      && r.workspaces == s.workspaces
      && r.sessions == (if owner in s.sessions then s.sessions[owner := s.sessions[owner].(javaProcess := None)] else s.sessions)
      && r.inherited == (if owner !in s.sessions && owner in InheritedNames then s.inherited - {owner} else s.inherited)
      && r.childHandles == (if owner !in s.sessions && owner !in InheritedNames && Resolves(s, owner)
           then s.childHandles - {SharedProcess(s).value} else s.childHandles)
    ensures Valid(r)
  {
    var owner := s.spawned[pid].owner;
    forall id | id in r.sessions && r.sessions[id].javaProcess.Some?
      ensures RunsFor(r, r.sessions[id].javaProcess.value, id)
    {
      assert id != owner && r.sessions[id] == s.sessions[id];
      StopKeepsRunning(s, r, pid, r.sessions[id].javaProcess.value, id);
    }
    forall n | n in r.inherited
      ensures RunsFor(r, r.inherited[n], n)
    {
      assert n != owner && r.inherited[n] == s.inherited[n];
      StopKeepsRunning(s, r, pid, r.inherited[n], n);
    }
    forall p | p in r.childHandles
      ensures StartedFor(r, p, "__proto__") && StartedFor(r, r.childHandles[p], HandleProperty)
    {
      assert r.childHandles[p] == s.childHandles[p];
    }
  }


  /** Stopping one process leaves every other process as it was. */
  lemma StopKeepsRunning(s: State, r: State, pid: Pid, p: Pid, owner: string)
    requires RunsFor(s, p, owner) && p != pid && pid < |s.spawned|
    requires r.spawned == s.spawned[pid := s.spawned[pid].(running := false)]
    ensures RunsFor(r, p, owner)
  {
  }

  /** Both invariants hold after any run from any state that has them. */
  lemma {:induction false} RunKeeps(s: State, trace: seq<Event>)
    requires Valid(s) && NeverActive(s)
    ensures Valid(Run(s, trace)) && NeverActive(Run(s, trace))
    decreases |trace|
  {
    if trace != [] {
      ApplyKeepsValid(s, trace[0]);
      ApplyKeepsNeverActive(s, trace[0]);
      RunKeeps(Apply(s, trace[0]).0, trace[1..]);
    }
  }

  /** Every reachable state is valid and has no session with a `lastActive`. */
  lemma Reachable(root: string, trace: seq<Event>)
    ensures Valid(Replay(root, trace)) && NeverActive(Replay(root, trace))
  {
    RunKeeps(Init(root), trace);
  }

  /**
   * Since `lastActive` is never set, cleanupSessions removes nothing from a
   * reachable state, whatever the time.
   */
  lemma SweepRemovesNothing(root: string, trace: seq<Event>, now: int)
    ensures Sweep(Replay(root, trace), now) == Replay(root, trace)
  {
    var s := Replay(root, trace);
    Reachable(root, trace);
    assert ExpiredIds(s.sessions, now) == {};
    assert s.sessions - {} == s.sessions;
    assert s.workspaces - {} == s.workspaces;
  }

  /** In a valid state, closing removes the session and its directory, and only those. */
  lemma CloseRemovesSession(s: State, id: SessionId)
    requires Valid(s) && id != HandleProperty
    ensures Close(s, id).sessions == s.sessions - {id}
    ensures Close(s, id).workspaces == s.workspaces - {id}
    ensures Close(s, id).spawned == s.spawned
  {
    if id !in s.sessions {
      assert s.sessions - {id} == s.sessions;
    }
    if !Resolves(s, id) {
      assert s.workspaces - {id} == s.workspaces;
    }
  }

  /** Closing twice is closing once. */
  lemma CloseIdempotent(s: State, id: SessionId)
    ensures Close(Close(s, id), id) == Close(s, id)
  {
  }

  /** A compile failure spawns nothing and leaves every handle as it was. */
  lemma CompileFailureSpawnsNothing(s: State, id: SessionId, mainFileName: string, stderr: string)
    ensures var r := CompileFinished(s, id, mainFileName, CompileFailed(stderr));
      && r.0.spawned == s.spawned && r.0.sessions == s.sessions
      && r.0.inherited == s.inherited && r.0.childHandles == s.childHandles
      && r.1 == Responded(CompileError)
      && Log(r.0.outbox, id) == Log(s.outbox, id) +
           (if Delivers(s, id) then [Diagnostics.CompileErrorMessage(WorkspaceDir(s.root, id), stderr)] else [])
  {
  }

  /**
   * A second successful compile replaces the handle without stopping the
   * earlier process: it is still running, and no longer the session's.
   */
  lemma RerunOrphansProcess(s: State, id: SessionId, mainFileName: string)
    requires Valid(s)
    requires id in s.sessions && s.sessions[id].javaProcess.Some?
    ensures var prev := s.sessions[id].javaProcess.value;
      var r := CompileFinished(s, id, mainFileName, Compiled).0;
      && r.spawned[prev] == s.spawned[prev] && r.spawned[prev].running
      && r.sessions[id].javaProcess == Some(|s.spawned|)
      && prev != |s.spawned|
  {
  }

  /**
   * The exit of the orphaned process clears the session's handle even
   * though it points at the newer process, which keeps running.
   */
  lemma OrphanExitClearsNewerHandle(s: State, id: SessionId, mainFileName: string, code: Option<int>)
    requires Valid(s)
    requires id in s.sessions && s.sessions[id].javaProcess.Some?
    ensures var prev := s.sessions[id].javaProcess.value;
      var r := CompileFinished(s, id, mainFileName, Compiled).0;
      var e := ProcessExit(r, prev, code);
      && e.0.sessions[id].javaProcess.None?
      && e.0.spawned[|s.spawned|].running
      && !e.1
  {
  }

  /**
   * A session closed while `javac` runs makes the spawn's assignment throw,
   * for every id generateSessionId can yield.
   */
  lemma CloseDuringCompileCrashes(s: State, id: SessionId, mainFileName: string)
    requires id !in InheritedNames && id != HandleProperty
    ensures CompileFinished(Close(s, id), id, mainFileName, Compiled).1 == Crashed
  {
  }

  /**
   * A session closed while its process runs makes that process's exit
   * throw, for every id generateSessionId can yield.
   */
  lemma CloseBeforeExitCrashes(s: State, pid: Pid, code: Option<int>)
    requires pid < |s.spawned| && s.spawned[pid].owner !in InheritedNames && s.spawned[pid].owner != HandleProperty
    ensures ProcessExit(Close(s, s.spawned[pid].owner), pid, code).1
  {
  }

  /**
   * A /run request whose id is an inherited name such as "constructor"
   * passes the session check: its batch is written into a directory of that
   * name, which belongs to no session, and a successful compile starts the
   * program without throwing and without touching the table.
   */
  lemma InheritedNameRuns(s: State, n: string, fs: seq<SourceFile>)
    requires Valid(s) && n in InheritedNames
    requires fs != [] && FindMain(fs).Some?
    ensures Submit(s, Some(n), Some(fs), None).1.Compiling?
    ensures var sub := Submit(s, Some(n), Some(fs), None);
      var done := CompileFinished(sub.0, n, sub.1.mainFileName, Compiled);
      && n in sub.0.workspaces && n !in sub.0.sessions
      && done.1 == Responded(ExecutionStarted)
      && done.0.sessions == s.sessions
      && done.0.inherited == s.inherited[n := |s.spawned|]
  {
    SubmitWrites(s, Some(n), Some(fs), None);
  }

  /**
   * A program started under "__proto__" is stored on Object.prototype: every
   * session without a handle of its own now finds it, and that session's
   * messages go to its stdin.
   */
  lemma SharedProcessReachesSessions(s: State, mainFileName: string, id: SessionId, msg: string)
    requires Valid(s)
    requires id in s.sessions && s.sessions[id].javaProcess.None?
    ensures var r := CompileFinished(s, "__proto__", mainFileName, Compiled).0;
      && r.spawned[|s.spawned|].owner == "__proto__"
      && CurrentProcess(r, id) == Some(|s.spawned|)
      && Log(Message(r, id, msg).stdin, |s.spawned|) == Log(r.stdin, |s.spawned|) + [msg + "\n"]
  {
  }

  /**
   * Once a program has been started under "__proto__", Object.prototype has
   * a `javaProcess`, so the table inherits that name too: a /run request
   * with it passes the session check, its batch goes into a directory that
   * belongs to no session, and a successful compile stores the new handle on
   * the child that Object.prototype holds and answers without throwing.
   */
  lemma HandlePropertyRuns(s: State, mainFileName: string, fs: seq<SourceFile>)
    requires Valid(s) && HandleProperty !in s.sessions
    requires fs != [] && FindMain(fs).Some?
    ensures Submit(Launch(s, "__proto__", mainFileName).0, Some(HandleProperty), Some(fs), None).1.Compiling?
    ensures var s1 := Launch(s, "__proto__", mainFileName).0;
      var sub := Submit(s1, Some(HandleProperty), Some(fs), None);
      var done := CompileFinished(sub.0, HandleProperty, sub.1.mainFileName, Compiled);
      && HandleProperty in sub.0.workspaces
      && done.1 == Responded(ExecutionStarted)
      && done.0.sessions == s.sessions
      && done.0.childHandles == s.childHandles[|s.spawned| := |s.spawned| + 1]
  {
    var s1 := Launch(s, "__proto__", mainFileName).0;
    assert "__proto__" !in s.sessions;
    var sub := Submit(s1, Some(HandleProperty), Some(fs), None);
    HandleSubmitCompiles(s1, fs);
    HandleLaunchStarts(sub.0, sub.1.mainFileName);
  }

  /** With Object.prototype holding a child, a /run for "javaProcess" reaches `javac`. */
  lemma HandleSubmitCompiles(s: State, fs: seq<SourceFile>)
    requires HandleProperty !in s.sessions && SharedProcess(s).Some?
    requires fs != [] && FindMain(fs).Some?
    ensures var sub := Submit(s, Some(HandleProperty), Some(fs), None);
      && sub.1.Compiling? && HandleProperty in sub.0.workspaces
      && sub.0.sessions == s.sessions && sub.0.inherited == s.inherited
      && sub.0.childHandles == s.childHandles && sub.0.spawned == s.spawned
  {
    assert KnownSession(s, Some(HandleProperty)) && WrittenCount(fs, None) == |fs|;
    SubmitWrites(s, Some(HandleProperty), Some(fs), None);
  }

  /** With Object.prototype holding a child, runJava for "javaProcess" stores the handle on it. */
  lemma HandleLaunchStarts(s: State, mainFileName: string)
    requires HandleProperty !in s.sessions && SharedProcess(s).Some?
    ensures var done := CompileFinished(s, HandleProperty, mainFileName, Compiled);
      && done.1 == Responded(ExecutionStarted)
      && done.0.sessions == s.sessions
      && done.0.childHandles == s.childHandles[SharedProcess(s).value := |s.spawned|]
  {
    assert Resolves(s, HandleProperty);
  }


}
