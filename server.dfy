/**
 * The server of app.js as an object: the `sessions` table and the session
 * directories are fields the handlers update in place. Every handler is
 * proved to leave exactly the state the matching Registry transition
 * describes, and to keep the Lifecycle invariants.
 */
module Server {
  import opened Wrappers
  import opened JavaNames
  import opened Registry
  import Lifecycle
  import Diagnostics

  class SessionServer {
    const root: string
    var sessions: map<SessionId, Session>
    var inherited: map<string, Pid>
    var childHandles: map<Pid, Pid>
    var workspaces: map<SessionId, Workspace>
    var outbox: map<SessionId, seq<string>>
    var stdin: map<Pid, seq<string>>
    var spawned: seq<Process>

    /** The fields as a Registry state. */
    function Snapshot(): State
      reads this
    {
      State(root, sessions, inherited, childHandles, workspaces, outbox, stdin, spawned)
    }

    ghost predicate Valid()
      reads this
    {
      Lifecycle.Valid(Snapshot())
    }

    /** An empty table over the directory `root`. */
    constructor(root: string)
      ensures Snapshot() == Init(root)
      ensures Valid()
    {
      this.root := root;
      sessions := map[];
      inherited := map[];
      childHandles := map[];
      workspaces := map[];
      outbox := map[];
      stdin := map[];
      spawned := [];
    }

    /** broadcast (app.js:167-171). */
    method Broadcast(id: SessionId, msg: string)
      modifies this
      ensures Snapshot() == Registry.Broadcast(old(Snapshot()), id, msg)
    {
      if id in sessions && sessions[id].ws {
        outbox := outbox[id := Log(outbox, id) + [msg]];
      }
    }

    /** The 'connection' handler (app.js:35-41) for the fresh id `id`. */
    method OnConnection(id: SessionId)
      requires Valid() && id !in InheritedNames
      modifies this
      ensures Snapshot() == Connect(old(Snapshot()), id)
      ensures Valid()
    {
      ghost var s0 := Snapshot();
      sessions := sessions[id := Session(true, None, None)];
      outbox := outbox[id := Log(outbox, id) + [UserIdPrefix + id]];
      Lifecycle.ConnectKeepsValid(s0, id);
    }

    /** The socket's 'message' handler (app.js:43-48). */
    method OnMessage(id: SessionId, msg: string)
      requires Valid()
      modifies this
      ensures Snapshot() == Message(old(Snapshot()), id, msg)
      ensures Valid()
    {
      ghost var s0 := Snapshot();
      var current := CurrentProcess(Snapshot(), id);
      if current.Some? {
        var p := current.value;
        stdin := stdin[p := Log(stdin, p) + [msg + "\n"]];
      }
      Lifecycle.MessageKeepsValid(s0, id, msg);
    }

    /** The socket's 'close' handler (app.js:51-63). */
    method OnClose(id: SessionId)
      requires Valid()
      modifies this
      ensures Snapshot() == Close(old(Snapshot()), id)
      ensures Valid()
    {
      ghost var s0 := Snapshot();
      if Resolves(Snapshot(), id) {
        workspaces := workspaces - {id};
        sessions := sessions - {id};
      }
      Lifecycle.CloseKeepsValid(s0, id);
    }

    /**
     * createCodeFile (app.js:94-110): the directory is created when missing,
     * then the file is written unless `fails` says the write reports an error.
     */
    method CreateCodeFile(id: SessionId, f: SourceFile, fails: bool) returns (ok: bool)
      modifies this
      ensures ok == !fails
      ensures workspaces == (if fails then EnsureDir(old(workspaces), id) else WriteFile(old(workspaces), id, f))
      ensures sessions == old(sessions) && inherited == old(inherited) && childHandles == old(childHandles) && outbox == old(outbox) && stdin == old(stdin) && spawned == old(spawned)
    {
      if id !in workspaces {
        workspaces := workspaces[id := map[]];
      }
      if fails {
        return false;
      }
      workspaces := workspaces[id := workspaces[id][f.fileName := f.content]];
      return true;
    }

    /**
     * The loop of POST /run (app.js:78-80): the files are written one after
     * the other until a write fails; `writeFailsAt` names that write, if any.
     */
    method WriteFilesInOrder(id: SessionId, fs: seq<SourceFile>, writeFailsAt: Option<nat>) returns (ok: bool)
      requires fs != []
      modifies this
      ensures ok <==> WrittenCount(fs, writeFailsAt) == |fs|
      ensures workspaces == EnsureDir(WriteFiles(old(workspaces), id, fs[..WrittenCount(fs, writeFailsAt)]), id)
      ensures sessions == old(sessions) && inherited == old(inherited) && childHandles == old(childHandles) && outbox == old(outbox) && stdin == old(stdin) && spawned == old(spawned)
    {
      ghost var ws0 := workspaces;
      var i := 0;
      while i < |fs|
        invariant i <= WrittenCount(fs, writeFailsAt)
        invariant workspaces == WriteFiles(ws0, id, fs[..i])
        invariant sessions == old(sessions) && inherited == old(inherited) && childHandles == old(childHandles) && outbox == old(outbox) && stdin == old(stdin) && spawned == old(spawned)
      {
        ok := CreateCodeFile(id, fs[i], writeFailsAt == Some(i));
        if !ok {
          assert WrittenCount(fs, writeFailsAt) == i;
          return;
        }
        WriteFilesStep(ws0, id, fs, i);
        i := i + 1;
      }
      assert fs[..i] == fs;
      WriteFilesMakesDir(ws0, id, fs);
      ok := true;
    }

    /**
     * POST /run (app.js:66-91) up to the start of `javac`: the checks, the
     * writes, and the choice of the main file.
     */
    method Run(sessionId: Option<string>, files: Option<seq<SourceFile>>, writeFailsAt: Option<nat>) returns (step: RunStep)
      requires Valid()
      modifies this
      ensures (Snapshot(), step) == Submit(old(Snapshot()), sessionId, files, writeFailsAt)
      ensures Valid()
    {
      ghost var s0 := Snapshot();
      ghost var r := Submit(s0, sessionId, files, writeFailsAt);
      Lifecycle.SubmitKeepsValid(s0, sessionId, files, writeFailsAt);
      if sessionId.None? || sessionId.value == "" || !Resolves(Snapshot(), sessionId.value) {
        step := Rejected(InvalidSession);
      } else if files.None? || |files.value| == 0 {
        step := Rejected(NoJavaFile);
      } else {
        assert KnownSession(s0, sessionId) && HasFiles(files);
        SubmitDirectories(s0, sessionId, files, writeFailsAt);
        var fs := files.value;
        var ok := WriteFilesInOrder(sessionId.value, fs, writeFailsAt);
        assert Snapshot() == r.0;
        if !ok {
          step := Rejected(SaveFailed);
        } else {
          var main := FindMain(fs);
          if main.None? {
            step := Rejected(MissingMain);
          } else {
            step := Compiling(fs[main.value].fileName);
          }
        }
      }
    }

    /**
     * runJava (app.js:127-158): `java` is spawned, then stored as the
     * session's process, or on the inherited object an inherited name
     * reaches, or on the child Object.prototype holds; the store throws
     * when `sessions[id]` is undefined.
     */
    method RunJava(id: SessionId, mainFileName: string) returns (done: Completion)
      requires Valid()
      modifies this
      ensures (Snapshot(), done) == Launch(old(Snapshot()), id, mainFileName)
      ensures Valid()
    {
      ghost var s0 := Snapshot();
      ghost var r := Launch(s0, id, mainFileName);
      Lifecycle.LaunchKeepsValid(s0, id, mainFileName);
      var className := ClassName(mainFileName);
      var pid := |spawned|;
      spawned := spawned + [Process(id, ["-cp", WorkspaceDir(root, id), className], true)];
      var stored := StoreHandle(id, pid);
      done := if stored then Responded(ExecutionStarted) else Crashed;
      assert Snapshot() == r.0;
    }

    /**
     * `sessions[id].javaProcess = child` (app.js:131): the handle goes on the
     * record, the inherited object or the child Object.prototype holds;
     * false when `sessions[id]` is undefined and the assignment throws.
     */
    method StoreHandle(id: SessionId, pid: Pid) returns (stored: bool)
      modifies this
      ensures stored <==> Resolves(old(Snapshot()), id)
      ensures Snapshot() == Registry.StoreHandle(old(Snapshot()), id, pid)
    {
      stored := true;
      if id in sessions {
        sessions := sessions[id := sessions[id].(javaProcess := Some(pid))];
      } else if id in InheritedNames {
        inherited := inherited[id := pid];
      } else if id == HandleProperty && "__proto__" in inherited {
        childHandles := childHandles[inherited["__proto__"] := pid];
      } else {
        stored := false;
      }
    }


    /**
     * compileAndRunJava (app.js:113-124, 161-165) once `javac` has finished
     * with `outcome`.
     */
    method CompileAndRunJava(id: SessionId, mainFileName: string, outcome: CompileOutcome) returns (done: Completion)
      requires Valid()
      modifies this
      ensures (Snapshot(), done) == CompileFinished(old(Snapshot()), id, mainFileName, outcome)
      ensures Valid()
    {
      ghost var s0 := Snapshot();
      match outcome
      case CompileFailed(stderr) =>
        Broadcast(id, Diagnostics.CompileErrorMessage(WorkspaceDir(root, id), stderr));
        done := Responded(CompileError);
        Lifecycle.CompileFinishedKeepsValid(s0, id, mainFileName, outcome);
      case Compiled =>
        done := RunJava(id, mainFileName);
    }

    /** The child's stdout and stderr 'data' handlers (app.js:139-145). */
    method OnProcessOutput(pid: Pid, data: string)
      requires Valid() && pid < |spawned|
      modifies this
      ensures Snapshot() == ProcessOutput(old(Snapshot()), pid, data)
      ensures Valid()
    {
      ghost var s0 := Snapshot();
      Broadcast(spawned[pid].owner, data);
      Lifecycle.ProcessOutputKeepsValid(s0, pid, data);
    }

    /** The child's 'close' handler (app.js:147-155); true when line 154 throws. */
    method OnProcessExit(pid: Pid, code: Option<int>) returns (crashed: bool)
      requires Valid() && pid < |spawned|
      modifies this
      ensures (Snapshot(), crashed) == ProcessExit(old(Snapshot()), pid, code)
      ensures Valid()
    {
      ghost var s0 := Snapshot();
      Lifecycle.ProcessExitKeepsValid(s0, pid, code);
      Lifecycle.ProcessExitTables(s0, pid, code);
      var owner := spawned[pid].owner;
      Broadcast(owner, ExitNotice(code));
      spawned := spawned[pid := spawned[pid].(running := false)];
      crashed := DropHandle(owner);
      assert crashed == ProcessExit(s0, pid, code).1;
    }

    /**
     * `delete sessions[owner].javaProcess` (app.js:154): the handle goes from
     * the record, the inherited object or the child Object.prototype holds;
     * true when `sessions[owner]` is undefined and the delete throws.
     */
    method DropHandle(owner: SessionId) returns (crashed: bool)
      modifies this
      ensures crashed <==> !Resolves(old(Snapshot()), owner)
      ensures Snapshot() == Registry.DropHandle(old(Snapshot()), owner)
    {
      if owner in sessions {
        sessions := sessions[owner := sessions[owner].(javaProcess := None)];
        crashed := false;
      } else if owner in InheritedNames {
        inherited := inherited - {owner};
        crashed := false;
      } else if owner == HandleProperty && "__proto__" in inherited {
        childHandles := childHandles - {inherited["__proto__"]};
        crashed := false;
      } else {
        crashed := true;
      }
    }


    /**
     * cleanupSessions (app.js:173-188) at time `now`: each key present when
     * the sweep starts is looked at once, and the expired ones are deleted
     * together with their directories.
     */
    method CleanupSessions(now: int)
      requires Valid()
      modifies this
      ensures Snapshot() == Sweep(old(Snapshot()), now)
      ensures Valid()
    {
      ghost var s0 := Snapshot();
      sessions, workspaces := RemoveExpired(sessions, workspaces, now);
      Lifecycle.SweepKeepsValid(s0, now);
    }
  }

  /**
   * The loop of cleanupSessions (app.js:175-187): each key present when the
   * loop starts is visited once, and an expired session is deleted together
   * with its directory.
   */
  method RemoveExpired(sessions: map<SessionId, Session>, workspaces: map<SessionId, Workspace>, now: int)
    returns (live: map<SessionId, Session>, dirs: map<SessionId, Workspace>)
    ensures live == sessions - ExpiredIds(sessions, now)
    ensures dirs == workspaces - ExpiredIds(sessions, now)
  {
    ghost var gone := ExpiredIds(sessions, now);
    live, dirs := sessions, workspaces;
    var keys := sessions.Keys;
    while keys != {}
      invariant keys <= sessions.Keys
      invariant live == sessions - (gone - keys)
      invariant dirs == workspaces - (gone - keys)
      decreases |keys|
    {
      var id :| id in keys;
      assert id in live && live[id] == sessions[id];
      var session := live[id];
      VisitKey(sessions, gone, keys, id);
      VisitKey(workspaces, gone, keys, id);
      if Expired(session, now) {
        dirs := dirs - {id};
        live := live - {id};
      }
      keys := keys - {id};
    }
    assert gone - keys == gone;
  }

  /**
   * Visiting one more key of the sweep: the entries removed so far are the
   * expired ones among the visited keys.
   */
  lemma VisitKey<V>(m: map<SessionId, V>, gone: set<SessionId>, keys: set<SessionId>, id: SessionId)
    requires id in keys
    ensures id in gone ==> (m - (gone - keys)) - {id} == m - (gone - (keys - {id}))
    ensures id !in gone ==> m - (gone - keys) == m - (gone - (keys - {id}))
  {
    assert gone - (keys - {id}) == (gone - keys) + (if id in gone then {id} else {});
  }
}
