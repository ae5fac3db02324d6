# Java runner server: session registry, /run flow, diagnostics, class names

This project models the core of `app.js`, a Node server that lets a browser
client open a WebSocket session, post Java source files to `POST /run`, and
receive the compiler's diagnostics or the program's output on the socket.

Node runs every handler to completion on one thread. The model therefore
treats each handler as one atomic transition of a state made of:

- the `sessions` table, mapping a session id to its socket flag, its current
  `java` process handle and its `lastActive` time;
- the process handles stored on objects that `sessions` inherits. The table
  is a plain object literal, so `sessions[id]` is also defined for the names
  it inherits from `Object.prototype` (`constructor`, `toString`,
  `__proto__` and the others). A `/run` request with such a name passes the
  session check. Its `javaProcess` is then stored on the inherited object.
  Through `__proto__`, that object is `Object.prototype` itself, so every
  record without a handle of its own sees that process as its own. From
  then on the table also inherits the name `javaProcess`: it resolves to
  that child process object, and a `/run` request under it stores its
  handle on the child;
- the session directories under `code/`, each a map from file name to content;
- the messages sent on each socket and the lines written to each child's
  stdin, both as append-only logs;
- the log of spawned `java` processes, where a process is identified by its
  position in that log.

The files are:

- `registry.dfy` (module `Registry`): the transitions as functions on values.
  Each transition states the whole next state, and the module also proves
  what a batch of writes leaves in a directory.
- `lifecycle.dfy` (module `Lifecycle`): every handler as an event, and runs
  of events from an empty table. It proves two invariants of every reachable
  state. First, every process handle, whether on a record or on an
  inherited object, names a running process that was started under that
  name; a handle stored on a child object names a process started for
  `javaProcess`, which may since have exited. Directories belong to live
  sessions, to inherited names or to `javaProcess`. Second,
  no session ever has a `lastActive` time, so the idle sweep never removes
  anything. It also proves the consequences of the code's ordering: re-runs
  orphan processes, and closing a session early makes a later callback
  throw. It also proves the consequences of the inherited names: a request
  for one of them spawns a process, and a process started for `__proto__`
  receives the input of every session without its own process.
- `server.dfy` (module `Server`): the server as an object. `SessionServer`
  holds the table, the directories and the logs as fields. Each handler is a
  method proved to leave exactly the state that the matching `Registry`
  transition describes, and to keep the invariant. The file-writing loop of
  `/run` and the loop of `cleanupSessions` are `while` loops with their
  invariants.
- `diagnostics.dfy` (module `Diagnostics`): the compile-error text. The
  global multi-line regular expression of app.js:117 is modelled as a
  left-to-right scan. For a directory that holds no `'\n'`, the scan is
  proved equal to splitting stderr into lines, scrubbing each line and
  joining them again. The file also models `String.prototype.trim` with
  JavaScript's whitespace set.
- `java_names.dfy` (module `JavaNames`): `files.find(file => file.isMain)`,
  and Node's POSIX `path.basename(name, '.java')`, quirks included.
- `wrappers.dfy`: the `Option` type.

Session ids, the compiler's outcome, write failures and the current time are
inputs to the transitions. A callback that throws outside any `try` block
ends the server. The model represents that as an explicit outcome:
`Completion.Crashed` for the store at app.js:131, and `true` in the second
part of `ProcessExit` for the delete at app.js:154. Neither is a
precondition.

The model follows `app.js`, including where it departs from what such a
service would be expected to do:

- `lastActive` is never set by any live handler. The only assignment is in
  the unreachable `wss.on('message')` handler.
- A session without `lastActive` never expires.
- The files of a batch are written before the main-file check. The first
  file marked `isMain` is taken, and further ones are ignored.
- Closing a session does not stop its process.
- File names are not checked for path traversal.
- The session check of `/run` accepts the names inherited from
  `Object.prototype`, which are not sessions, and `javaProcess` once a
  program has been started under `__proto__`.

## Model

| member | source | states |
|---|---|---|
| Registry.Init | app.js:19 | the root directory is the given one and the table starts empty: no records, no handles on inherited objects, no directories, no socket messages, no stdin and no processes |
| Registry.Broadcast | app.js:167-171 | the message is appended to the log of `id` exactly when the session exists and has a socket; every other log and all other state is unchanged |
| Registry.Connect | app.js:35-41 | for an id that is not an inherited name, as generateSessionId guarantees: the record under the id is replaced by one holding only the socket; `"userId: " + id` is sent on it; inherited handles, directories, stdin and processes are unchanged |
| Registry.Message | app.js:43-48 | with a current process (the record's own handle, or the one inherited from `Object.prototype` through `__proto__`; for `javaProcess`, the handle on the child object or else the child itself), `msg + "\n"` is appended to that process's stdin and no other stdin changes; without one, the state is unchanged; no session field ever changes |
| Registry.Close | app.js:51-63 | when `sessions[id]` is truthy (a record, an inherited name, or `javaProcess` after a `__proto__` run) the directory of `id` goes and its record, if any, is deleted; otherwise the state is unchanged; the root, logs, processes and handles on inherited objects are never touched |
| Registry.EnsureDir | app.js:95-98 | the session's directory exists afterwards and keeps its files when it already existed; other directories are unchanged |
| Registry.WriteFile | app.js:94-110 | one successful createCodeFile: the directory exists and the file holds the new content; every other file of the directory and every other directory is unchanged |
| Registry.WriteFiles | app.js:78-80 | after at least one write the directory exists; no other directory changes |
| Registry.WriteFilesStep | app.js:78-80 | writing the first i + 1 files is writing the first i, then file i |
| Registry.WriteFilesMakesDir | app.js:96-97 | once at least one file has been written, the directory exists |
| Registry.LastContent | app.js:78-80 | the content that stays on disk for a name is that of the last file of the batch with that name (no later file has it); there is none exactly when no file has that name |
| Registry.WrittenCount | app.js:78-80 | the writes before the failing one succeed: fewer than all succeed exactly when a write of the batch fails, and then the count is the index of that write |
| Registry.Submit | app.js:66-91 | checks in order: an empty id, or one that is neither a record nor a name inherited from `Object.prototype` (nor `javaProcess` once `Object.prototype` holds a process), gives 400 "Invalid session ID or session expired" and no change; then missing or empty files give 400 "At least one Java file is required" and no change; then a failing write gives 500 "Error saving the Java file"; only after all writes does a batch without a main file give 400 "Main Java file is missing"; otherwise compilation starts with the first main file's name; only the directories change |
| Registry.CompileFinished | app.js:113-124 | on failure, the scrubbed message is broadcast and the answer is 500 "Compilation error occurred"; on success, the result is that of `Launch` |
| Registry.StoreHandle | app.js:131 | `sessions[id].javaProcess = child`: the pid goes on the session's record, on the inherited object for an inherited name, or on the child that `Object.prototype` holds for `javaProcess`; nothing changes when `sessions[id]` is undefined; nothing but these handles changes |
| Registry.DropHandle | app.js:154 | `delete sessions[id].javaProcess` on the same object: the record's handle becomes None, or the inherited object's or child's handle is removed; nothing changes when `sessions[id]` is undefined; nothing but these handles changes |
| Registry.Launch | app.js:127-158 | exactly one `java -cp <dir> <class>` process is appended; it becomes the handle of the session, of the inherited object for an inherited name, or of the child that `Object.prototype` holds for `javaProcess`, and the answer is "Execution started…"; if the name resolves to nothing, the spawn still happens and the callback throws; directories, logs and stdin are unchanged |
| Registry.ProcessOutput | app.js:139-145 | a chunk of the child's output is appended to the log of the session that started it when that session has a socket; every other session's log and all other state is unchanged |
| Registry.ExitNotice | app.js:149-153 | "Code executed successfully" exactly for exit code 0; "Execution failed with an error." for any other code or a signal |
| Registry.ProcessExit | app.js:147-155 | the exit notice is broadcast to the owner and no other log changes; the process stops running; the owner's handle is removed whatever process it names, from the record, from the inherited object, or from the child that `Object.prototype` holds for `javaProcess`; the root, directories and stdin are unchanged; the handler throws exactly when the owner resolves to nothing |
| Registry.Expired | app.js:178 | a session without `lastActive` never expires |
| Registry.ExpiredLater | app.js:178 | a session that has expired stays expired at any later time |
| Registry.Sweep | app.js:173-188 | exactly the expired sessions and their directories are removed; every other record and directory is kept as it was; logs and processes are unchanged |
| Registry.WriteFilesContent | app.js:94-110 | after a batch of writes, each name written holds the content of its last write; unwritten files of the directory and the other directories are unchanged |
| Registry.WrittenPrefix | app.js:94-110 | after the writes that precede a failing one, with the directory created first: a name is in the directory exactly when it was there before or was written; a written name holds its last content; an unwritten name keeps its old content; other directories are unchanged |
| Registry.SubmitWrites | app.js:77-80 | a request that passes both checks leaves the directory in place; a name is in it exactly when it was there before or was written before any failure; a written name holds its last content, and any other keeps its old content; other directories are untouched |
| Registry.SubmitDirectories | app.js:77-80 | a request that passes both checks leaves the directories of `WriteFiles` on the written prefix, with the directory created |
| Registry.MissingMainKeepsFiles | app.js:78-85 | a batch rejected for a missing main file has already been written: every one of its files is in the directory with its last content |
| Lifecycle.ConnectKeepsValid | app.js:35-41 | a connection keeps the bookkeeping invariant: every handle on a record or an inherited object names a running process started under its name, a handle on a child object names a process started for `javaProcess` (which may have exited), and directories belong to live sessions, inherited names or `javaProcess` |
| Lifecycle.MessageKeepsValid | app.js:43-48 | an inbound message keeps the invariant |
| Lifecycle.CloseKeepsValid | app.js:51-63 | closing keeps the invariant |
| Lifecycle.SubmitKeepsValid | app.js:66-91 | a /run request keeps the invariant: its directory belongs to a live session, an inherited name or `javaProcess` |
| Lifecycle.CompileFinishedKeepsValid | app.js:113-124 | the compile callback keeps the invariant |
| Lifecycle.LaunchKeepsValid | app.js:127-158 | runJava keeps the invariant: the new handle names the fresh process; every other handle on a record or an inherited object still names its running process, and every handle on a child object still names a process started for `javaProcess` |
| Lifecycle.ProcessOutputKeepsValid | app.js:139-145 | output from a child keeps the invariant |
| Lifecycle.ProcessExitKeepsValid | app.js:147-155 | a process exit keeps the invariant: no handle on a record or an inherited object is left naming the stopped process; a handle on a child object that `Object.prototype` no longer holds may still name it, since the delete then reaches a different object |
| Lifecycle.SweepKeepsValid | app.js:173-188 | the sweep keeps the invariant |
| Lifecycle.Apply | app.js:35-188 | only the compile callback and the exit handler can throw; no handler changes the root directory |
| Lifecycle.ApplyKeepsValid | app.js:35-188 | every handler keeps the invariant |
| Lifecycle.ApplyKeepsNeverActive | app.js:35-188 | no handler sets `lastActive` |
| Lifecycle.RunKeeps | app.js:35-188 | any sequence of handlers keeps both invariants |
| Lifecycle.Reachable | app.js:19 | every state reachable from the empty table satisfies both invariants |
| Lifecycle.SweepRemovesNothing | app.js:173-188 | in every reachable state, the sweep removes nothing at any time, because no session has a `lastActive` time |
| Lifecycle.CloseRemovesSession | app.js:51-63 | in a valid state, closing any id other than `javaProcess` removes exactly its record and its directory and leaves processes alone |
| Lifecycle.CloseIdempotent | app.js:54-62 | closing twice is the same as closing once |
| Lifecycle.CompileFailureSpawnsNothing | app.js:116-119 | a compile failure spawns nothing, leaves every handle unchanged, answers 500 "Compilation error occurred", and sends the scrubbed message exactly when the session has a socket |
| Lifecycle.RerunOrphansProcess | app.js:131 | a second successful compile replaces the handle with the new process; the earlier process is unchanged and keeps running |
| Lifecycle.OrphanExitClearsNewerHandle | app.js:147-155 | when the orphaned process exits, the session's handle is cleared although it names the newer process, which keeps running |
| Lifecycle.CloseDuringCompileCrashes | app.js:131 | for every id generateSessionId can yield, a session closed while `javac` runs makes the handle assignment after the spawn throw |
| Lifecycle.CloseBeforeExitCrashes | app.js:154 | for every id generateSessionId can yield, a session closed while its process runs makes that process's exit handler throw |
| Lifecycle.InheritedNameRuns | app.js:69 | a /run request with an inherited name such as `constructor` passes the session check, writes its batch into a directory that belongs to no session and, once compiled, starts the program with answer "Execution started…" while the table stays unchanged |
| Lifecycle.SharedProcessReachesSessions | app.js:46 | a program started under `__proto__` becomes the current process of every session without its own handle, and that session's messages go to its stdin |
| Lifecycle.HandlePropertyRuns | app.js:69-131 | after a program has been started under `__proto__`, a /run request under `javaProcess` passes the session check, writes its batch into `code/javaProcess`, and once compiled stores the new handle on the child that `Object.prototype` holds and answers "Execution started…", while the table stays unchanged |
| Server.SessionServer.constructor | app.js:19 | the object starts as the empty table and satisfies the invariant |
| Server.SessionServer.Broadcast | app.js:167-171 | the new state is `Registry.Broadcast` of the old one |
| Server.SessionServer.OnConnection | app.js:35-41 | the new state is `Registry.Connect` of the old one; the invariant is kept |
| Server.SessionServer.OnMessage | app.js:43-48 | the new state is `Registry.Message` of the old one; the invariant is kept |
| Server.SessionServer.OnClose | app.js:51-63 | the new state is `Registry.Close` of the old one; the invariant is kept |
| Server.SessionServer.CreateCodeFile | app.js:94-110 | the directory is created when missing; the file is written and the result is success unless the write fails; nothing else changes |
| Server.SessionServer.WriteFilesInOrder | app.js:78-80 | the loop writes the files in order up to the first failing write; it succeeds exactly when none fails; the directories are those of `WriteFiles` on the written prefix |
| Server.SessionServer.Run | app.js:66-91 | the new state and the result are those of `Registry.Submit`; the invariant is kept |
| Server.SessionServer.RunJava | app.js:127-158 | the new state and the outcome are those of `Registry.Launch`; the invariant is kept |
| Server.SessionServer.StoreHandle | app.js:131 | the new state is `Registry.StoreHandle` of the old one, and the store succeeds exactly when `sessions[id]` is truthy |
| Server.SessionServer.CompileAndRunJava | app.js:161-165 | the new state and the outcome are those of `Registry.CompileFinished` for the given compiler outcome; the invariant is kept |
| Server.SessionServer.OnProcessOutput | app.js:139-145 | the new state is `Registry.ProcessOutput` of the old one; the invariant is kept |
| Server.SessionServer.OnProcessExit | app.js:147-155 | the new state and the crash flag are those of `Registry.ProcessExit`; the invariant is kept |
| Server.SessionServer.DropHandle | app.js:154 | the new state is `Registry.DropHandle` of the old one, and the delete throws exactly when `sessions[owner]` is undefined |
| Server.SessionServer.CleanupSessions | app.js:173-188 | the new state is `Registry.Sweep` at `now`; the invariant is kept |
| Server.RemoveExpired | app.js:175-187 | the loop over the keys present at its start removes exactly the expired sessions and their directories |
| Diagnostics.NewlineIndex | app.js:117 | the position of the first `'\n'`, or the length when there is none |
| Diagnostics.Split | app.js:117 | a text has at least one line, and no line holds `'\n'` |
| Diagnostics.JoinSplit | app.js:117 | joining the lines of a text gives the text back |
| Diagnostics.SplitJoin | app.js:117 | splitting joined lines without `'\n'` gives the lines back |
| Diagnostics.ScrubLine | app.js:117 | the result is a suffix of the line; a line not starting with the directory is unchanged; a line starting with it loses exactly the directory plus at most one following backslash |
| Diagnostics.ScrubLines | app.js:117 | line i of the result is line i of the input scrubbed, and the number of lines is kept |
| Diagnostics.ReplaceAtLineStarts | app.js:117 | the scan never lengthens the text, and away from a line start it changes nothing in a text without `'\n'` |
| Diagnostics.ReplaceFirstLine | app.js:117 | at a line start, the scan scrubs the first line and continues after it |
| Diagnostics.ScrubIsLineWise | app.js:117 | the global multi-line replacement equals splitting into lines, scrubbing each one and joining again |
| Diagnostics.ScrubKeepsLines | app.js:117 | the replaced text has as many lines as stderr, and each is the matching input line scrubbed |
| Diagnostics.TrimStart | app.js:118 | the result is a suffix of the text and does not start with whitespace |
| Diagnostics.TrimEnd | app.js:118 | the result is a prefix of the text and does not end with whitespace |
| Diagnostics.TrimStartRemovesWhitespace | app.js:118 | everything removed at the front is whitespace |
| Diagnostics.TrimEndRemovesWhitespace | app.js:118 | everything removed at the back is whitespace |
| Diagnostics.Trim | app.js:118 | the result neither starts nor ends with whitespace |
| Diagnostics.TrimKeepsMiddle | app.js:118 | the trimmed text is a contiguous middle part of the text, and everything removed on either side is whitespace |
| Diagnostics.CompileErrorMessage | app.js:117-118 | the message starts with "ERROR:\n"; for a directory without `'\n'`, the rest is the trimmed line-wise scrub of stderr |
| JavaNames.FindMain | app.js:82 | the result is the index of the first file marked main; it is None exactly when no file is marked |
| JavaNames.FindMainIgnoresOthers | app.js:82 | whatever follows the first main file, and whatever the names and contents, that file is chosen |
| JavaNames.TrimTrailingSlashes | app.js:129 | the path minus only trailing slashes, ending in a non-slash or empty |
| JavaNames.AfterLastSlash | app.js:129 | the suffix after the last slash; it holds no slash |
| JavaNames.LastSegment | app.js:129 | the last path segment holds no slash |
| JavaNames.StripJava | app.js:129 | the reference reading: a segment longer than ".java" that ends with it loses the extension; any other segment is kept |
| JavaNames.ClassName | app.js:129 | the class name is never longer than the path |
| JavaNames.LastSegmentAfterDirectory | app.js:129 | the last segment of `dir/name` is `name` |
| JavaNames.ClassNameOfPlainPath | app.js:129 | for a path not ending in '/' and other than ".java", the class name is the last segment with a trailing ".java" removed |
| JavaNames.ClassNameStripsExtension | app.js:129 | the main file `dir/Base.java` runs class `Base` |
| JavaNames.ClassNameKeepsOtherNames | app.js:129 | a main file whose name does not end in ".java" runs the class named by its last segment, unchanged |

## Left out

- Express, body-parser, CORS, the HTTP and WebSocket servers and `server.listen` (app.js:1-17, 30-33, 201-203) are transport. Responses are values, and what is sent on a socket is a log.
- `javac` and `java` are external processes. The compiler's outcome is an input, and a spawn is a fresh entry in the log of processes. The `stdout`/`stderr` chunks and the exit code are event inputs.
- The filesystem is a map of directories. `path.join` normalisation and path traversal through `file_name` are not modelled. The existence of `code/` at start-up (app.js:25-28) is assumed.
- Why a write fails is not modelled. `writeFailsAt` names the failing write, if any.
- Registry.SubmitWrites: a write that fails is assumed to leave its file as it was, although `fs.writeFile` (app.js:102) opens with flag 'w' and may already have created or truncated it. The same holds for Server.SessionServer.CreateCodeFile.
- `generateSessionId` (app.js:21-23) uses floating-point `Math.random`. Ids are inputs, and an id that is already in use replaces its record, as in the code.
- Registry.Connect: it requires an id that is not a name inherited from `Object.prototype`, because generateSessionId yields `'_'` followed by base-36 digits, which never forms one of those names. Assigning under `__proto__` would replace the table's prototype.
- Only the property lookups `sessions[id]`, including `javaProcess` after a `__proto__` run, and the `javaProcess` property of what they reach are modelled for inherited names. Other prototype-pollution effects of storing `javaProcess` on `Object.prototype` (on objects outside the table) are not.
- `setInterval` (app.js:190) is a scheduler. The sweep takes the current time as a parameter.
- The commented-out timeout (app.js:133-137, 148) is not live code.
- The `wss.on('message')` handler (app.js:192-199) is never called, since the server object emits no such event. It is the only place that sets `lastActive`, so the model has no handler that sets it.
- Registry.Submit: the `await` between writes is not modelled. A batch is written atomically, so a handler that runs between two writes of the same batch is not represented.
- Registry.Submit: inputs that are not strings or arrays (a non-array `files`, a file object without `file_name`) are not modelled, nor are the TypeError messages that line 89 would send for them.
- The socket log is keyed by session id. A connection that reuses an id already in use (a collision of `generateSessionId`) shares the log of the earlier socket.
- Lifecycle.Apply: output or exit events of a process that was never spawned cannot occur, and they leave the state unchanged.
- Diagnostics.ReplaceAtLineStarts: the directory is matched literally. Regular-expression metacharacters in the path (such as `.`) are not given their regex meaning.
- Diagnostics.ReplaceAtLineStarts: only `'\n'` ends a line. The multi-line `^` of JavaScript also matches after `'\r'`, U+2028 and U+2029.
- Diagnostics.CompileErrorMessage: the line-wise equality is stated only for a directory that holds no `'\n'`. For other directories only the `"ERROR:\n"` prefix is stated.
- Diagnostics.ScrubLine: only the directory and at most one backslash are removed. The `/` that follows the directory in POSIX `javac` paths stays, as in the code.
- Strings are sequences of characters. UTF-16 code units and surrogate pairs are not modelled.
- JavaNames.ClassName: its characterisation is proved for paths that do not end in `'/'` and are not ".java" itself. Its other cases follow Node's `path.basename` quirks as written but carry no lemma of their own.
- Writing to a child whose stdin is closed (EPIPE) and other stream errors are not modelled.
