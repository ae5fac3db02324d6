/**
 * The session registry of app.js as a state machine. Node runs every handler
 * to completion on one thread, so each handler is one transition from a
 * State to the next:
 *
 *   Connect         the WebSocket 'connection' handler (app.js:35-41)
 *   Message         the socket's 'message' handler (app.js:43-48)
 *   Close           the socket's 'close' handler (app.js:51-63)
 *   Submit          POST /run up to the start of `javac` (app.js:66-91, 94-110)
 *   CompileFinished the `exec` callback: scrubbed error, or Launch (runJava)
 *                   (app.js:113-124, 127-158, 161-165)
 *   ProcessOutput   the child's stdout/stderr 'data' handlers (app.js:139-145)
 *   ProcessExit     the child's 'close' handler (app.js:147-155)
 *   Sweep           cleanupSessions at a given time (app.js:173-188)
 *
 * The per-session directory under `code/` is a map from file name to
 * content; what is sent on a socket and written to a child's stdin are
 * append-only logs; a spawned process is identified by its position in the
 * log of spawns. Session ids, the compiler's outcome and the moment a
 * handler runs are inputs.
 */
module Registry {
  import opened Wrappers
  import opened JavaNames
  import Diagnostics

  type SessionId = string

  /** A spawned `java` process: its position in State.spawned. */
  type Pid = nat

  /** The files of one session directory: file name to content. */
  type Workspace = map<string, string>

  /** Idle time after which cleanupSessions removes a session (app.js:178). */
  const IdleLimitMs: int := 300000

  /**
   * A value of the `sessions` table: whether it holds a socket, the handle
   * of the current `java` process, and the time of the last activity.
   */
  datatype Session = Session(ws: bool, javaProcess: Option<Pid>, lastActive: Option<int>)

  /** A `java` child process: whose it is, its arguments, whether it runs. */
  datatype Process = Process(owner: SessionId, args: seq<string>, running: bool)

  datatype State = State(
    root: string,                                // the `code/` directory
    sessions: map<SessionId, Session>,
    inherited: map<string, Pid>,                 // `javaProcess` stored on inherited objects
    childHandles: map<Pid, Pid>,                 // `javaProcess` stored on child process objects
    workspaces: map<SessionId, Workspace>,       // the directories under root
    outbox: map<SessionId, seq<string>>,         // what was sent on each socket
    stdin: map<Pid, seq<string>>,                // what was written to each child
    spawned: seq<Process>)

  datatype Body = ErrorBody(error: string) | MessageBody(message: string)

  /** An HTTP response: status code and JSON body. */
  datatype Response = Response(status: int, body: Body)

  const InvalidSession := Response(400, ErrorBody("Invalid session ID or session expired"))
  const NoJavaFile := Response(400, ErrorBody("At least one Java file is required"))
  const MissingMain := Response(400, ErrorBody("Main Java file is missing"))
  const SaveFailed := Response(500, ErrorBody("Error saving the Java file"))
  const CompileError := Response(500, ErrorBody("Compilation error occurred"))
  const ExecutionStarted := Response(200, MessageBody("Execution started, check the WebSocket for live output."))

  const ExecutionSucceeded: string := "Code executed successfully"
  const ExecutionFailed: string := "Execution failed with an error."
  const UserIdPrefix: string := "userId: "

  /** How a /run request leaves its handler: answered, or waiting for `javac`. */
  datatype RunStep = Rejected(response: Response) | Compiling(mainFileName: string)

  /**
   * How an asynchronous callback ends: it answers the request, or it throws
   * a TypeError outside any try block, which ends the server process.
   */
  datatype Completion = Responded(response: Response) | Crashed

  /** What `javac` reported: success, or failure with its stderr. */
  datatype CompileOutcome = Compiled | CompileFailed(stderr: string)

  /**
   * The names a plain `{}` inherits from Object.prototype in Node. For each
   * of them `sessions[name]` is truthy although the table holds no such key:
   * "__proto__" reaches Object.prototype itself, the others reach functions.
   */
  const InheritedNames: set<string> := {
    "constructor", "__defineGetter__", "__defineSetter__", "hasOwnProperty",
    "__lookupGetter__", "__lookupSetter__", "isPrototypeOf", "propertyIsEnumerable",
    "toString", "valueOf", "__proto__", "toLocaleString"
  }

  /**
   * The property runJava assigns. Once it has been assigned through
   * "__proto__", Object.prototype has it too, so the table inherits it.
   */
  const HandleProperty: string := "javaProcess"

  /**
   * `sessions[id]` is truthy: an own record, an inherited object, or the
   * child process that Object.prototype holds as its `javaProcess`.
   */
  predicate Resolves(s: State, id: string)
  {
    id in s.sessions || id in InheritedNames || (id == HandleProperty && SharedProcess(s).Some?)
  }

  /** `path.join(codeDir, sessionId)` for an id without slashes or dots. */
  function WorkspaceDir(root: string, id: SessionId): string
  {
    root + "/" + id
  }

  function Init(root: string): (s: State)
    ensures s.root == root && s.sessions == map[] && s.inherited == map[] && s.childHandles == map[]
    ensures s.workspaces == map[] && s.outbox == map[] && s.stdin == map[] && s.spawned == []
  {
    State(root, map[], map[], map[], map[], map[], map[], [])
  }

  /** The log stored under `k`, empty when there is none yet. */
  function Log<K>(m: map<K, seq<string>>, k: K): seq<string>
  {
    if k in m then m[k] else []
  }

  // ---------------------------------------------------------------------
  // Sending
  // ---------------------------------------------------------------------

  /** `ws.send(msg)` on the socket of session `id`. */
  function Send(s: State, id: SessionId, msg: string): State
  {
    s.(outbox := s.outbox[id := Log(s.outbox, id) + [msg]])
  }

  /** broadcast reaches session `id` exactly when it exists and has a socket. */
  predicate Delivers(s: State, id: SessionId)
  {
    id in s.sessions && s.sessions[id].ws
  }

  /**
   * broadcast (app.js:167-171): the message is appended to the socket log of
   * `id` when the session exists and has a socket, and dropped otherwise;
   * nothing else changes.
   */
  function Broadcast(s: State, id: SessionId, msg: string): (r: State)
    ensures Log(r.outbox, id) == Log(s.outbox, id) + (if Delivers(s, id) then [msg] else [])
    ensures forall other :: other != id ==> Log(r.outbox, other) == Log(s.outbox, other)
    ensures r.(outbox := s.outbox) == s
  {
    if Delivers(s, id) then Send(s, id, msg) else s
  }

  // ---------------------------------------------------------------------
  // The socket handlers
  // ---------------------------------------------------------------------

  /**
   * A new connection under the fresh id `id`: any record already stored
   * under it is replaced by one holding only the socket, and the id is sent
   * to the client. The id comes from generateSessionId: '_' and base-36
   * digits, never an inherited name.
   */
  function Connect(s: State, id: SessionId): (r: State)
    requires id !in InheritedNames
    ensures r.sessions == s.sessions[id := Session(true, None, None)]
    ensures Log(r.outbox, id) == Log(s.outbox, id) + [UserIdPrefix + id]
    ensures forall other :: other != id ==> Log(r.outbox, other) == Log(s.outbox, other)
    ensures r.root == s.root && r.inherited == s.inherited && r.childHandles == s.childHandles
    ensures r.workspaces == s.workspaces && r.stdin == s.stdin && r.spawned == s.spawned
  {
    Send(s.(sessions := s.sessions[id := Session(true, None, None)]), id, UserIdPrefix + id)
  }

  /** `Object.prototype.javaProcess`, which every record and every inherited function sees. */
  function SharedProcess(s: State): Option<Pid>
  {
    if "__proto__" in s.inherited then Some(s.inherited["__proto__"]) else None
  }

  /**
   * `sessions[id]?.javaProcess`: the object's own handle when it has one,
   * otherwise the one it inherits from Object.prototype; nothing when
   * `sessions[id]` is undefined. Under "javaProcess" the object is the
   * shared child itself, which inherits itself as its `javaProcess`.
   */
  function CurrentProcess(s: State, id: SessionId): Option<Pid>
  {
    if id in s.sessions then
      if s.sessions[id].javaProcess.Some? then s.sessions[id].javaProcess else SharedProcess(s)
    else if id in InheritedNames then
      if id in s.inherited then Some(s.inherited[id]) else SharedProcess(s)
    else if id == HandleProperty && SharedProcess(s).Some? then
      var p := SharedProcess(s).value;
      if p in s.childHandles then Some(s.childHandles[p]) else Some(p)
    else None
  }

  /**
   * A message from the client: written, with a '\n', to the stdin of the
   * session's current process; dropped when there is none. No session field
   * changes.
   */
  function Message(s: State, id: SessionId, msg: string): (r: State)
    ensures r.(stdin := s.stdin) == s
    ensures CurrentProcess(s, id).None? ==> r == s
    ensures CurrentProcess(s, id).Some? ==>
      var p := CurrentProcess(s, id).value;
      Log(r.stdin, p) == Log(s.stdin, p) + [msg + "\n"]
      && forall q :: q != p ==> Log(r.stdin, q) == Log(s.stdin, q)
  {
    match CurrentProcess(s, id)
    case None => s
    case Some(p) => s.(stdin := s.stdin[p := Log(s.stdin, p) + [msg + "\n"]])
  }

  /**
   * The socket of `id` closes: when `sessions[id]` is truthy the directory
   * goes and the record is deleted (a no-op for a name the table only
   * inherits); otherwise nothing changes. Processes are left alone.
   */
  function Close(s: State, id: SessionId): (r: State)
    ensures !Resolves(s, id) ==> r == s
    ensures Resolves(s, id) ==> r.sessions == s.sessions - {id} && r.workspaces == s.workspaces - {id}
    ensures r.root == s.root && r.inherited == s.inherited && r.childHandles == s.childHandles
    ensures r.outbox == s.outbox && r.stdin == s.stdin && r.spawned == s.spawned
  {
    if Resolves(s, id) then s.(sessions := s.sessions - {id}, workspaces := s.workspaces - {id}) else s
  }

  // ---------------------------------------------------------------------
  // POST /run
  // ---------------------------------------------------------------------

  /**
   * `!sessionId || !sessions[sessionId]` is false: a non-empty id that names
   * a record or an inherited object.
   */
  predicate KnownSession(s: State, sessionId: Option<string>)
  {
    sessionId.Some? && sessionId.value != "" && Resolves(s, sessionId.value)
  }

  /** `!files || files.length === 0` is false. */
  predicate HasFiles(files: Option<seq<SourceFile>>)
  {
    files.Some? && |files.value| > 0
  }

  /** createCodeFile's `mkdirSync` when the directory is missing. */
  function EnsureDir(ws: map<SessionId, Workspace>, id: SessionId): (r: map<SessionId, Workspace>)
    ensures id in r && r[id] == (if id in ws then ws[id] else map[])
    ensures forall other :: other != id ==> (other in r <==> other in ws)
    ensures forall other :: other != id && other in ws ==> r[other] == ws[other]
  {
    if id in ws then ws else ws[id := map[]]
  }

  /**
   * One createCodeFile call that succeeds: the file is created or
   * overwritten, every other file and every other directory stays.
   */
  function WriteFile(ws: map<SessionId, Workspace>, id: SessionId, f: SourceFile): (r: map<SessionId, Workspace>)
    ensures id in r && f.fileName in r[id] && r[id][f.fileName] == f.content
    ensures forall name :: name != f.fileName ==>
      (name in r[id] <==> id in ws && name in ws[id]) && (name in r[id] ==> r[id][name] == ws[id][name])
    ensures forall other :: other != id ==> (other in r <==> other in ws) && (other in r ==> r[other] == ws[other])
  {
    var d := EnsureDir(ws, id);
    d[id := d[id][f.fileName := f.content]]
  }

  /**
   * The files written one after the other, in order: only the directory of
   * `id` changes, and it exists once anything has been written.
   */
  function WriteFiles(ws: map<SessionId, Workspace>, id: SessionId, fs: seq<SourceFile>): (r: map<SessionId, Workspace>)
    ensures fs != [] ==> id in r
    ensures forall other :: other != id ==> (other in r <==> other in ws) && (other in r ==> r[other] == ws[other])
  {
    if fs == [] then ws else WriteFile(WriteFiles(ws, id, fs[..|fs| - 1]), id, fs[|fs| - 1])
  }

  /** Writing the first i + 1 files is writing the first i, then file i. */
  lemma WriteFilesStep(ws: map<SessionId, Workspace>, id: SessionId, fs: seq<SourceFile>, i: nat)
    requires i < |fs|
    ensures WriteFiles(ws, id, fs[..i + 1]) == WriteFile(WriteFiles(ws, id, fs[..i]), id, fs[i])
  {
    assert fs[..i + 1][..i] == fs[..i];
  }

  /** Once a file has been written the directory exists. */
  lemma WriteFilesMakesDir(ws: map<SessionId, Workspace>, id: SessionId, fs: seq<SourceFile>)
    requires fs != []
    ensures EnsureDir(WriteFiles(ws, id, fs), id) == WriteFiles(ws, id, fs)
  {
  }

  /** File i of `fs` is named `name`, holds `content`, and no later file has that name. */
  predicate LastWriteAt(fs: seq<SourceFile>, name: string, i: int, content: string)
  {
    0 <= i < |fs| && fs[i].fileName == name && fs[i].content == content
    && forall j :: i < j < |fs| ==> fs[j].fileName != name
  }

  /** The content of the last file in `fs` named `name`: the one that stays on disk. */
  function LastContent(fs: seq<SourceFile>, name: string): (c: Option<string>)
    ensures c.None? <==> forall i :: 0 <= i < |fs| ==> fs[i].fileName != name
    ensures c.Some? ==> exists i :: LastWriteAt(fs, name, i, c.value)
  {
    if fs == [] then None
    else if fs[|fs| - 1].fileName == name then
      assert LastWriteAt(fs, name, |fs| - 1, fs[|fs| - 1].content);
      Some(fs[|fs| - 1].content)
    else
      var c := LastContent(fs[..|fs| - 1], name);
      assert forall i :: 0 <= i < |fs| - 1 ==> fs[..|fs| - 1][i] == fs[i];
      assert c.Some? ==> exists i :: LastWriteAt(fs, name, i, c.value) by {
        if c.Some? {
          var i :| LastWriteAt(fs[..|fs| - 1], name, i, c.value);
          assert LastWriteAt(fs, name, i, c.value);
        }
      }
      c
  }

  /**
   * How many writes of the batch succeed: all of them, or those before the
   * one that fails.
   */
  function WrittenCount(fs: seq<SourceFile>, writeFailsAt: Option<nat>): (k: nat)
    ensures k <= |fs|
    ensures k < |fs| <==> writeFailsAt.Some? && writeFailsAt.value < |fs|
    ensures k < |fs| ==> k == writeFailsAt.value
  {
    if writeFailsAt.Some? && writeFailsAt.value < |fs| then writeFailsAt.value else |fs|
  }

  /**
   * The first part of POST /run. `writeFailsAt` names the write, if any,
   * whose callback reports an error; the directory is created before that
   * write is attempted. The checks come in the source's order: session,
   * then files, then every write, and only then the main file.
   */
  function Submit(s: State, sessionId: Option<string>, files: Option<seq<SourceFile>>, writeFailsAt: Option<nat>): (r: (State, RunStep))
    ensures !KnownSession(s, sessionId) ==> r == (s, Rejected(InvalidSession))
    ensures KnownSession(s, sessionId) && !HasFiles(files) ==> r == (s, Rejected(NoJavaFile))
    ensures r.0.(workspaces := s.workspaces) == s
    ensures r.1 == Rejected(SaveFailed) <==>
      KnownSession(s, sessionId) && HasFiles(files) && WrittenCount(files.value, writeFailsAt) < |files.value|
    ensures r.1 == Rejected(MissingMain) <==>
      KnownSession(s, sessionId) && HasFiles(files) && WrittenCount(files.value, writeFailsAt) == |files.value|
      && FindMain(files.value).None?
    ensures r.1.Compiling? <==>
      KnownSession(s, sessionId) && HasFiles(files) && WrittenCount(files.value, writeFailsAt) == |files.value|
      && FindMain(files.value).Some?
    ensures r.1.Compiling? ==> r.1.mainFileName == files.value[FindMain(files.value).value].fileName
  {
    if !KnownSession(s, sessionId) then (s, Rejected(InvalidSession))
    else if !HasFiles(files) then (s, Rejected(NoJavaFile))
    else
      var id := sessionId.value;
      var fs := files.value;
      var k := WrittenCount(fs, writeFailsAt);
      var s' := s.(workspaces := EnsureDir(WriteFiles(s.workspaces, id, fs[..k]), id));
      if k < |fs| then (s', Rejected(SaveFailed))
      else match FindMain(fs)
        case None => (s', Rejected(MissingMain))
        case Some(i) => (s', Compiling(fs[i].fileName))
  }

  /**
   * The `exec` callback of compileJava (app.js:115-123): on failure the
   * scrubbed stderr is broadcast and the request is answered 500; on
   * success runJava runs.
   */
  function CompileFinished(s: State, id: SessionId, mainFileName: string, outcome: CompileOutcome): (r: (State, Completion))
    ensures outcome.CompileFailed? ==>
      r == (Broadcast(s, id, Diagnostics.CompileErrorMessage(WorkspaceDir(s.root, id), outcome.stderr)), Responded(CompileError))
    ensures outcome.Compiled? ==> r == Launch(s, id, mainFileName)
  {
    match outcome
    case CompileFailed(stderr) =>
      (Broadcast(s, id, Diagnostics.CompileErrorMessage(WorkspaceDir(s.root, id), stderr)), Responded(CompileError))
    case Compiled => Launch(s, id, mainFileName)
  }

  /**
   * `sessions[id].javaProcess = child`: the handle goes on the session's
   * own record, on the inherited object, or on the child that
   * Object.prototype holds when `id` is "javaProcess". When `sessions[id]`
   * is undefined nothing changes (the code throws).
   */
  function StoreHandle(s: State, id: string, pid: Pid): (r: State)
    ensures r.(sessions := s.sessions, inherited := s.inherited, childHandles := s.childHandles) == s
    ensures r.sessions.Keys == s.sessions.Keys
    ensures id in s.sessions ==>
      r.sessions == s.sessions[id := s.sessions[id].(javaProcess := Some(pid))]
      && r.inherited == s.inherited && r.childHandles == s.childHandles
    ensures id !in s.sessions && id in InheritedNames ==>
      r.sessions == s.sessions && r.inherited == s.inherited[id := pid] && r.childHandles == s.childHandles
    ensures id !in s.sessions && id !in InheritedNames && Resolves(s, id) ==>
      r.sessions == s.sessions && r.inherited == s.inherited
      && r.childHandles == s.childHandles[SharedProcess(s).value := pid]
    ensures !Resolves(s, id) ==> r == s
  {
    if id in s.sessions then
      s.(sessions := s.sessions[id := s.sessions[id].(javaProcess := Some(pid))])
    else if id in InheritedNames then
      s.(inherited := s.inherited[id := pid])
    else if id == HandleProperty && SharedProcess(s).Some? then
      s.(childHandles := s.childHandles[SharedProcess(s).value := pid])
    else s
  }

  /**
   * `delete sessions[id].javaProcess`, on the same object StoreHandle
   * assigns to. Deleting a property the object does not own changes
   * nothing; when `sessions[id]` is undefined the code throws.
   */
  function DropHandle(s: State, id: string): (r: State)
    ensures r.(sessions := s.sessions, inherited := s.inherited, childHandles := s.childHandles) == s
    ensures id in s.sessions ==>
      r.sessions == s.sessions[id := s.sessions[id].(javaProcess := None)]
      && r.inherited == s.inherited && r.childHandles == s.childHandles
    ensures id !in s.sessions && id in InheritedNames ==>
      r.sessions == s.sessions && r.inherited == s.inherited - {id} && r.childHandles == s.childHandles
    ensures id !in s.sessions && id !in InheritedNames && Resolves(s, id) ==>
      r.sessions == s.sessions && r.inherited == s.inherited
      && r.childHandles == s.childHandles - {SharedProcess(s).value}
    ensures !Resolves(s, id) ==> r == s
  {
    if id in s.sessions then
      s.(sessions := s.sessions[id := s.sessions[id].(javaProcess := None)])
    else if id in InheritedNames then
      s.(inherited := s.inherited - {id})
    else if id == HandleProperty && SharedProcess(s).Some? then
      s.(childHandles := s.childHandles - {SharedProcess(s).value})
    else s
  }

  /**
   * runJava: `java -cp <dir> <class>` is spawned and becomes the session's
   * current process, whatever process was current before. For an inherited
   * name the handle is stored on the inherited object, and for
   * "javaProcess" on the child that Object.prototype holds. The assignment
   * throws when `sessions[id]` is undefined, which happens when the session
   * has been closed while `javac` ran; the spawn has already happened.
   */
  function Launch(s: State, id: SessionId, mainFileName: string): (r: (State, Completion))
    ensures r.0.spawned == s.spawned + [Process(id, ["-cp", WorkspaceDir(s.root, id), ClassName(mainFileName)], true)]
    ensures r.0.root == s.root && r.0.workspaces == s.workspaces && r.0.outbox == s.outbox && r.0.stdin == s.stdin
    ensures r.0.sessions.Keys == s.sessions.Keys
    ensures r.1 == (if Resolves(s, id) then Responded(ExecutionStarted) else Crashed)
    ensures id in s.sessions ==>
      r.0.sessions == s.sessions[id := s.sessions[id].(javaProcess := Some(|s.spawned|))]
      && r.0.inherited == s.inherited && r.0.childHandles == s.childHandles
    ensures id !in s.sessions && id in InheritedNames ==>
      r.0.sessions == s.sessions && r.0.inherited == s.inherited[id := |s.spawned|]
      && r.0.childHandles == s.childHandles
    ensures id !in s.sessions && id !in InheritedNames && Resolves(s, id) ==>
      r.0.sessions == s.sessions && r.0.inherited == s.inherited
      && r.0.childHandles == s.childHandles[SharedProcess(s).value := |s.spawned|]
    ensures !Resolves(s, id) ==>
      r.0.sessions == s.sessions && r.0.inherited == s.inherited && r.0.childHandles == s.childHandles
  {
    var child := Process(id, ["-cp", WorkspaceDir(s.root, id), ClassName(mainFileName)], true);
    var s1 := s.(spawned := s.spawned + [child]);
    (StoreHandle(s1, id, |s.spawned|), if Resolves(s, id) then Responded(ExecutionStarted) else Crashed)
  }

  // ---------------------------------------------------------------------
  // The child process
  // ---------------------------------------------------------------------

  /** A chunk on the child's stdout or stderr goes to its session's socket. */
  function ProcessOutput(s: State, pid: Pid, data: string): (r: State)
    requires pid < |s.spawned|
    ensures var owner := s.spawned[pid].owner;
      && Log(r.outbox, owner) == Log(s.outbox, owner) + (if Delivers(s, owner) then [data] else [])
      && (forall other :: other != owner ==> Log(r.outbox, other) == Log(s.outbox, other))
      && r.(outbox := s.outbox) == s
  {
    Broadcast(s, s.spawned[pid].owner, data)
  }

  /** The notice broadcast when a child exits with `code` (None: killed by a signal). */
  function ExitNotice(code: Option<int>): (notice: string)
    ensures notice == ExecutionSucceeded <==> code == Some(0)
    ensures notice != ExecutionSucceeded ==> notice == ExecutionFailed
  {
    if code == Some(0) then ExecutionSucceeded else ExecutionFailed
  }

  /**
   * The child's 'close' handler: the exit notice is broadcast to the
   * session that started it, then that session's handle is removed, even
   * when it points at a newer process; for an inherited name the handle on
   * the inherited object goes, and for "javaProcess" the one on the child
   * that Object.prototype holds at that moment. When `sessions[owner]` is
   * undefined the removal throws (the result's second part is true).
   */
  function ProcessExit(s: State, pid: Pid, code: Option<int>): (r: (State, bool))
    requires pid < |s.spawned|
    ensures var owner := s.spawned[pid].owner;
      && Log(r.0.outbox, owner) == Log(s.outbox, owner) + (if Delivers(s, owner) then [ExitNotice(code)] else [])
      && (forall other :: other != owner ==> Log(r.0.outbox, other) == Log(s.outbox, other))
      && r.0.spawned == s.spawned[pid := s.spawned[pid].(running := false)]
      && r.0.root == s.root && r.0.workspaces == s.workspaces && r.0.stdin == s.stdin
      && (r.1 <==> !Resolves(s, owner))
      && (owner in s.sessions ==>
            r.0.sessions == s.sessions[owner := s.sessions[owner].(javaProcess := None)]
            && r.0.inherited == s.inherited && r.0.childHandles == s.childHandles)
      && (owner !in s.sessions ==> r.0.sessions == s.sessions)
      && (owner !in s.sessions && owner in InheritedNames ==>
            r.0.inherited == s.inherited - {owner} && r.0.childHandles == s.childHandles)
      && (owner !in s.sessions && owner !in InheritedNames && Resolves(s, owner) ==>
            r.0.inherited == s.inherited && r.0.childHandles == s.childHandles - {SharedProcess(s).value})
      && (!Resolves(s, owner) ==> r.0.inherited == s.inherited && r.0.childHandles == s.childHandles)
  {
    var owner := s.spawned[pid].owner;
    var s1 := Broadcast(s, owner, ExitNotice(code));
    var s2 := s1.(spawned := s1.spawned[pid := s1.spawned[pid].(running := false)]);
    (DropHandle(s2, owner), !Resolves(s, owner))
  }

  // ---------------------------------------------------------------------
  // cleanupSessions
  // ---------------------------------------------------------------------

  /**
   * `currentTime - session.lastActive > 300000`; with no `lastActive` the
   * difference is NaN and the comparison is false.
   */
  function Expired(sess: Session, now: int): (expired: bool)
    ensures sess.lastActive.None? ==> !expired
  {
    sess.lastActive.Some? && now - sess.lastActive.value > IdleLimitMs
  }

  /** A session that has expired stays expired as time goes on. */
  lemma ExpiredLater(sess: Session, now: int, later: int)
    requires Expired(sess, now) && now <= later
    ensures Expired(sess, later)
  {
  }

  function ExpiredIds(sessions: map<SessionId, Session>, now: int): (ids: set<SessionId>)
    ensures forall id :: id in ids <==> id in sessions && Expired(sessions[id], now)
  {
    set id | id in sessions && Expired(sessions[id], now)
  }

  /**
   * cleanupSessions at time `now`: exactly the expired sessions and their
   * directories go; every other record stays as it was.
   */
  function Sweep(s: State, now: int): (r: State)
    ensures forall id :: id in r.sessions <==> id in s.sessions && !Expired(s.sessions[id], now)
    ensures forall id :: id in r.sessions ==> r.sessions[id] == s.sessions[id]
    ensures forall id :: id in r.workspaces <==> id in s.workspaces && !(id in s.sessions && Expired(s.sessions[id], now))
    ensures forall id :: id in r.workspaces ==> r.workspaces[id] == s.workspaces[id]
    ensures r.root == s.root && r.inherited == s.inherited && r.childHandles == s.childHandles
    ensures r.outbox == s.outbox && r.stdin == s.stdin && r.spawned == s.spawned
  {
    var gone := ExpiredIds(s.sessions, now);
    s.(sessions := s.sessions - gone, workspaces := s.workspaces - gone)
  }

  // ---------------------------------------------------------------------
  // What the writes of a batch leave behind
  // ---------------------------------------------------------------------

  /**
   * After writing `fs` into the directory of `id`: every name written holds
   * the content of its last write, every other file of that directory is as
   * it was, and the other directories are untouched.
   */
  lemma {:induction false} WriteFilesContent(ws: map<SessionId, Workspace>, id: SessionId, fs: seq<SourceFile>)
    ensures var r := WriteFiles(ws, id, fs);
      && (forall other :: other != id ==> (other in r <==> other in ws))
      && (forall other :: other != id && other in ws ==> r[other] == ws[other])
      && (fs != [] ==> id in r)
      && (fs == [] ==> r == ws)
      && (id in r ==> forall name :: LastContent(fs, name).Some? ==> name in r[id] && r[id][name] == LastContent(fs, name).value)
      && (id in r ==> forall name :: LastContent(fs, name).None? ==>
            (name in r[id] <==> id in ws && name in ws[id]) && (name in r[id] ==> r[id][name] == ws[id][name]))
  {
    if fs != [] {
      var init := fs[..|fs| - 1];
      WriteFilesContent(ws, id, init);
      var before := WriteFiles(ws, id, init);
      var r := WriteFiles(ws, id, fs);
      var f := fs[|fs| - 1];
      assert r == WriteFile(before, id, f);
      forall name
        ensures LastContent(fs, name).Some? ==> name in r[id] && r[id][name] == LastContent(fs, name).value
        ensures LastContent(fs, name).None? ==>
          (name in r[id] <==> id in ws && name in ws[id]) && (name in r[id] ==> r[id][name] == ws[id][name])
      {
        if name != f.fileName {
          assert LastContent(fs, name) == LastContent(init, name);
          if init == [] {
            assert before == ws;
          }
        }
      }
    }
  }

  /**
   * The directories after the first `k` writes of a batch and the directory
   * creation that precedes any write: the directory of `id` exists; it holds
   * exactly the files it held before and the names written; every name
   * written holds its last content, every other file keeps its own; the
   * other directories are untouched.
   */
  lemma WrittenPrefix(ws: map<SessionId, Workspace>, id: SessionId, fs: seq<SourceFile>, k: nat)
    requires k <= |fs|
    ensures var r, written := EnsureDir(WriteFiles(ws, id, fs[..k]), id), fs[..k];
      && id in r
      && (forall name :: name in r[id] <==> (id in ws && name in ws[id]) || LastContent(written, name).Some?)
      && (forall name :: LastContent(written, name).Some? ==> r[id][name] == LastContent(written, name).value)
      && (forall name :: LastContent(written, name).None? && name in r[id] ==> r[id][name] == ws[id][name])
      && (forall other :: other != id ==> (other in r <==> other in ws))
      && (forall other :: other != id && other in ws ==> r[other] == ws[other])
  {
    WriteFilesContent(ws, id, fs[..k]);
  }

  /**
   * What a /run request that passes both checks leaves in the session's
   * directory: the directory exists; it holds exactly its earlier files and
   * the files written before any failing write; each written name holds its
   * last content and every other file keeps its own, including files named
   * only by the failing write or the writes after it; no other session's
   * directory changes.
   */
  lemma SubmitWrites(s: State, sessionId: Option<string>, files: Option<seq<SourceFile>>, writeFailsAt: Option<nat>)
    requires KnownSession(s, sessionId) && HasFiles(files)
    ensures var r := Submit(s, sessionId, files, writeFailsAt).0;
      var id := sessionId.value;
      var written := files.value[..WrittenCount(files.value, writeFailsAt)];
      && id in r.workspaces
      && (forall name :: name in r.workspaces[id] <==>
            (id in s.workspaces && name in s.workspaces[id]) || LastContent(written, name).Some?)
      && (forall name :: LastContent(written, name).Some? ==> r.workspaces[id][name] == LastContent(written, name).value)
      && (forall name :: LastContent(written, name).None? && name in r.workspaces[id] ==>
            r.workspaces[id][name] == s.workspaces[id][name])
      && (forall other :: other != id ==> (other in r.workspaces <==> other in s.workspaces))
      && (forall other :: other != id && other in s.workspaces ==> r.workspaces[other] == s.workspaces[other])
  {
    var id := sessionId.value;
    var fs := files.value;
    var k := WrittenCount(fs, writeFailsAt);
    SubmitDirectories(s, sessionId, files, writeFailsAt);
    WrittenPrefix(s.workspaces, id, fs, k);
  }

  /** The directories a /run request that passes both checks leaves behind. */
  lemma SubmitDirectories(s: State, sessionId: Option<string>, files: Option<seq<SourceFile>>, writeFailsAt: Option<nat>)
    requires KnownSession(s, sessionId) && HasFiles(files)
    ensures Submit(s, sessionId, files, writeFailsAt).0.workspaces ==
      EnsureDir(WriteFiles(s.workspaces, sessionId.value, files.value[..WrittenCount(files.value, writeFailsAt)]), sessionId.value)
  {
  }

  /**
   * A batch without a main file is rejected only after all of it has been
   * written: its files stay in the directory.
   */
  lemma MissingMainKeepsFiles(s: State, sessionId: Option<string>, files: Option<seq<SourceFile>>, writeFailsAt: Option<nat>)
    requires Submit(s, sessionId, files, writeFailsAt).1 == Rejected(MissingMain)
    ensures var r := Submit(s, sessionId, files, writeFailsAt).0;
      && sessionId.Some? && files.Some?
      && sessionId.value in r.workspaces
      && forall i :: 0 <= i < |files.value| ==>
           var name := files.value[i].fileName;
           name in r.workspaces[sessionId.value] && r.workspaces[sessionId.value][name] == LastContent(files.value, name).value
  {
    SubmitWrites(s, sessionId, files, writeFailsAt);
    var fs := files.value;
    assert fs[..WrittenCount(fs, writeFailsAt)] == fs;
    forall i | 0 <= i < |fs|
      ensures LastContent(fs, fs[i].fileName).Some?
    {
    }
  }
}
