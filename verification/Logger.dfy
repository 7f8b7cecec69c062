/** The rotating log file (server/common/log/logger.go), over a file system that maps
    paths to contents. */
module Logger {
  import Decimal

  /** The log path split as nextRotatedPath splits it, and the size limit. */
  datatype Config = Config(dir: string, base: string, ext: string, maxSize: int) {
    function Path(): string { dir + "/" + base + ext }

    /** Candidate names carry the time stamp and a running index. */
    function Candidate(ts: string, index: nat): string {
      dir + "/" + base + "_" + ts + "_" + Decimal.PrintNat(index) + ext
    }
  }

  /** l.file: nil, open, or a closed file that is still referenced. */
  datatype Handle = NoFile | OpenFile | ClosedFile

  /** The system call that fails during one write, if any. */
  datatype Fault =
    | NoFault
    | OpenFault
    | StatFault
    | SyncFault
    | CloseFault
    | NameFault
    | RenameFault
    | ReopenFault
    | WriteFault(written: nat)

  type Files = map<string, string>

  /** `rotated` lists the rotated files in rotation order. */
  datatype State = State(files: Files, handle: Handle, rotated: seq<string>)

  // ---------- the name search ----------

  lemma CandidatesDiffer(cfg: Config, ts: string, i: nat, j: nat)
    requires cfg.Candidate(ts, i) == cfg.Candidate(ts, j)
    ensures i == j
  {
    var prefix := cfg.dir + "/" + cfg.base + "_" + ts + "_";
    var a, b := Decimal.PrintNat(i), Decimal.PrintNat(j);
    assert cfg.Candidate(ts, i) == prefix + a + cfg.ext && cfg.Candidate(ts, j) == prefix + b + cfg.ext;
    assert |a| == |b|;
    assert (prefix + a + cfg.ext)[|prefix|..|prefix| + |a|] == a;
    assert (prefix + b + cfg.ext)[|prefix|..|prefix| + |b|] == b;
    Decimal.ParsePrintNat(i);
    Decimal.ParsePrintNat(j);
  }

  ghost predicate AllTaken(cfg: Config, names: set<string>, ts: string, n: nat) {
    forall j :: 1 <= j <= n ==> cfg.Candidate(ts, j) in names
  }

  /** Only as many candidates can be taken as there are files. */
  lemma {:induction false} TakenBound(cfg: Config, names: set<string>, ts: string, n: nat)
    requires AllTaken(cfg, names, ts, n)
    ensures n <= |names|
    decreases n
  {
    if n > 0 {
      var fewer := names - {cfg.Candidate(ts, n)};
      forall j | 1 <= j <= n - 1 ensures cfg.Candidate(ts, j) in fewer {
        if cfg.Candidate(ts, j) == cfg.Candidate(ts, n) { CandidatesDiffer(cfg, ts, j, n); }
      }
      TakenBound(cfg, fewer, ts, n - 1);
    }
  }

  /** The first free index; the search ends because candidates differ and files are finite. */
  function FirstFree(cfg: Config, files: Files, ts: string, from: nat): (k: nat)
    requires from >= 1 && AllTaken(cfg, files.Keys, ts, from - 1)
    ensures k >= 1 && cfg.Candidate(ts, k) !in files && AllTaken(cfg, files.Keys, ts, k - 1)
    decreases |files.Keys| + 1 - from
  {
    if cfg.Candidate(ts, from) !in files then from
    else
      TakenBound(cfg, files.Keys, ts, from);
      FirstFree(cfg, files, ts, from + 1)
  }

  method NextRotatedPath(cfg: Config, files: Files, ts: string) returns (path: string)
    ensures path == cfg.Candidate(ts, FirstFree(cfg, files, ts, 1))
    ensures path !in files
  {
    var index := 1;
    while cfg.Candidate(ts, index) in files
      invariant index >= 1 && AllTaken(cfg, files.Keys, ts, index - 1)
      invariant FirstFree(cfg, files, ts, index) == FirstFree(cfg, files, ts, 1)
      decreases |files.Keys| + 1 - index
    {
      TakenBound(cfg, files.Keys, ts, index);
      index := index + 1;
    }
    path := cfg.Candidate(ts, index);
  }

  // ---------- one write ----------

  function Current(cfg: Config, s: State): string {
    if cfg.Path() in s.files then s.files[cfg.Path()] else ""
  }

  function EnsureOpen(cfg: Config, s: State): State {
    if !s.handle.NoFile? then s
    else State(s.files[cfg.Path() := Current(cfg, s)], OpenFile, s.rotated)
  }

  function Landed(line: string, fault: Fault): string {
    if fault.WriteFault? && fault.written < |line| then line[..fault.written] else line
  }

  function Append(cfg: Config, s: State, text: string): State {
    s.(files := s.files[cfg.Path() := Current(cfg, s) + text])
  }

  /** The current file moves to a name nobody uses. */
  function Moved(cfg: Config, s: State, ts: string): State {
    var name := cfg.Candidate(ts, FirstFree(cfg, s.files, ts, 1));
    State(s.files[name := Current(cfg, s)] - {cfg.Path()}, ClosedFile, s.rotated + [name])
  }

  predicate NeedsRotation(cfg: Config, s: State, line: string) {
    |Current(cfg, s)| + |line| > cfg.maxSize
  }

  /** rotateIfNeeded; the flag tells whether it returned without error. */
  function Rotate(cfg: Config, s: State, line: string, ts: string, fault: Fault): (State, bool) {
    if s.handle.ClosedFile? || fault.StatFault? then (s, false)
    else if !NeedsRotation(cfg, s, line) then (s, true)
    else if fault.SyncFault? then (s, false)
    else if fault.CloseFault? || fault.NameFault? || fault.RenameFault? then (s.(handle := ClosedFile), false)
    else
      var m := Moved(cfg, s, ts);
      if fault.ReopenFault? then (m, false)
      else (State(m.files[cfg.Path() := ""], OpenFile, m.rotated), true)
  }

  /** writeToFile */
  function WriteLine(cfg: Config, s: State, line: string, ts: string, fault: Fault): State {
    if s.handle.NoFile? && fault.OpenFault? then s
    else
      var (r, ok) := Rotate(cfg, EnsureOpen(cfg, s), line, ts, fault);
      if ok then Append(cfg, r, Landed(line, fault)) else r
  }

  class RotatingLogger {
    const cfg: Config
    var files: Files
    var handle: Handle
    ghost var rotated: seq<string>

    ghost function View(): State reads this { State(files, handle, rotated) }

    ghost predicate Ready() reads this { handle.OpenFile? ==> cfg.Path() in files }

    constructor (cfg: Config, files: Files)
      ensures this.cfg == cfg && View() == State(files, NoFile, []) && Ready()
    {
      this.cfg, this.files, handle, rotated := cfg, files, NoFile, [];
    }

    method RotateIfNeeded(line: string, ts: string, fault: Fault) returns (ok: bool)
      requires Ready() && !handle.NoFile?
      modifies this
      ensures (View(), ok) == Rotate(cfg, old(View()), line, ts, fault)
      ensures Ready()
    {
      if handle.ClosedFile? || fault.StatFault? { return false; }
      if |files[cfg.Path()]| + |line| <= cfg.maxSize { return true; }
      if fault.SyncFault? { return false; }
      handle := ClosedFile;
      if fault.CloseFault? || fault.NameFault? || fault.RenameFault? { return false; }
      var name := NextRotatedPath(cfg, files, ts);
      files := files[name := files[cfg.Path()]] - {cfg.Path()};
      rotated := rotated + [name];
      if fault.ReopenFault? { return false; }
      files := files[cfg.Path() := ""];
      handle := OpenFile;
      return true;
    }

    method WriteToFile(line: string, ts: string, fault: Fault)
      requires Ready()
      modifies this
      ensures View() == WriteLine(cfg, old(View()), line, ts, fault)
      ensures Ready()
    {
      if handle.NoFile? {
        if fault.OpenFault? { return; }
        if cfg.Path() !in files { files := files[cfg.Path() := ""]; }
        handle := OpenFile;
      }
      assert files == EnsureOpen(cfg, old(View())).files;
      assert View() == EnsureOpen(cfg, old(View()));
      var ok := RotateIfNeeded(line, ts, fault);
      if !ok { return; }
      files := files[cfg.Path() := files[cfg.Path()] + Landed(line, fault)];
    }
  }

  // ---------- nothing written is lost ----------

  /** The rotated files in order. */
  ghost function Joined(files: Files, names: seq<string>): string {
    if names == [] then ""
    else
      var n := |names| - 1;
      Joined(files, names[..n]) + if names[n] in files then files[names[n]] else ""
  }

  ghost function Everything(cfg: Config, s: State): string { Joined(s.files, s.rotated) + Current(cfg, s) }

  ghost predicate Valid(cfg: Config, s: State) {
    && (s.handle.OpenFile? ==> cfg.Path() in s.files)
    && (forall i :: 0 <= i < |s.rotated| ==> s.rotated[i] in s.files && s.rotated[i] != cfg.Path())
  }

  lemma {:induction false} JoinedFrame(files: Files, files': Files, names: seq<string>)
    requires forall i :: 0 <= i < |names| ==> names[i] in files && names[i] in files' && files[names[i]] == files'[names[i]]
    ensures Joined(files, names) == Joined(files', names)
  {
    if names != [] { JoinedFrame(files, files', names[..|names| - 1]); }
  }

  lemma OpenConserves(cfg: Config, s: State)
    requires Valid(cfg, s)
    ensures Valid(cfg, EnsureOpen(cfg, s)) && Everything(cfg, EnsureOpen(cfg, s)) == Everything(cfg, s)
  {
    JoinedFrame(s.files, EnsureOpen(cfg, s).files, s.rotated);
  }

  lemma AppendConserves(cfg: Config, s: State, text: string)
    requires Valid(cfg, s)
    ensures Valid(cfg, Append(cfg, s, text)) && Everything(cfg, Append(cfg, s, text)) == Everything(cfg, s) + text
  {
    JoinedFrame(s.files, Append(cfg, s, text).files, s.rotated);
    assert Joined(s.files, s.rotated) + (Current(cfg, s) + text) == Joined(s.files, s.rotated) + Current(cfg, s) + text;
  }

  lemma MoveConserves(cfg: Config, s: State, ts: string)
    requires Valid(cfg, s) && s.handle.OpenFile?
    ensures var m := Moved(cfg, s, ts);
      && Valid(cfg, m) && Everything(cfg, m) == Everything(cfg, s)
      && Valid(cfg, State(m.files[cfg.Path() := ""], OpenFile, m.rotated))
      && Everything(cfg, State(m.files[cfg.Path() := ""], OpenFile, m.rotated)) == Everything(cfg, s)
  {
    var m := Moved(cfg, s, ts);
    var name := m.rotated[|s.rotated|];
    assert name !in s.files && name != cfg.Path();
    assert m.rotated[..|s.rotated|] == s.rotated;
    forall i | 0 <= i < |s.rotated| ensures s.rotated[i] in m.files && m.files[s.rotated[i]] == s.files[s.rotated[i]] {
      assert s.rotated[i] != name;
    }
    JoinedFrame(s.files, m.files, s.rotated);
    JoinedFrame(m.files, m.files[cfg.Path() := ""], m.rotated);
    assert Joined(m.files, m.rotated) == Joined(s.files, s.rotated) + Current(cfg, s);
    assert Joined(m.files, m.rotated) + "" == Joined(m.files, m.rotated);
  }

  /** What one write adds to the log: the line, or as much of it as a fault lets through. */
  ghost function Added(cfg: Config, s: State, line: string, ts: string, fault: Fault): string {
    if s.handle.NoFile? && fault.OpenFault? then ""
    else if Rotate(cfg, EnsureOpen(cfg, s), line, ts, fault).1 then Landed(line, fault) else ""
  }

  /** Whatever fails, the log keeps all it held, in order, and grows by what was added. */
  lemma WriteConserves(cfg: Config, s: State, line: string, ts: string, fault: Fault)
    requires Valid(cfg, s)
    ensures var s' := WriteLine(cfg, s, line, ts, fault);
      Valid(cfg, s') && Everything(cfg, s') == Everything(cfg, s) + Added(cfg, s, line, ts, fault)
  {
    if !(s.handle.NoFile? && fault.OpenFault?) {
      OpenConserves(cfg, s);
      var o := EnsureOpen(cfg, s);
      var (r, ok) := Rotate(cfg, o, line, ts, fault);
      RotateConserves(cfg, o, line, ts, fault);
      if ok { AppendConserves(cfg, r, Landed(line, fault)); }
    }
  }

  lemma RotateConserves(cfg: Config, s: State, line: string, ts: string, fault: Fault)
    requires Valid(cfg, s) && !s.handle.NoFile?
    ensures var r := Rotate(cfg, s, line, ts, fault).0;
      Valid(cfg, r) && Everything(cfg, r) == Everything(cfg, s)
  {
    if s.handle.OpenFile? { MoveConserves(cfg, s, ts); }
  }

  /** Rotation never overwrites a file and touches no file but the current one. */
  lemma RotationKeepsOtherFiles(cfg: Config, s: State, line: string, ts: string, fault: Fault, path: string)
    requires path in s.files && path != cfg.Path()
    ensures var s' := WriteLine(cfg, s, line, ts, fault);
      path in s'.files && s'.files[path] == s.files[path]
  {}

  /** After an undisturbed write the current file fits the limit or holds just that line. */
  lemma CurrentFitsOrIsOneLine(cfg: Config, s: State, line: string, ts: string)
    requires !s.handle.ClosedFile?
    ensures var s' := WriteLine(cfg, s, line, ts, NoFault);
      && s'.handle.OpenFile?
      && (|Current(cfg, s')| <= cfg.maxSize || Current(cfg, s') == line)
  {
    assert "" + line == line;
  }

  // ---------- runs ----------

  datatype Call = Call(line: string, ts: string, fault: Fault)

  function Run(cfg: Config, start: State, calls: seq<Call>): State {
    if calls == [] then start
    else
      var c := calls[|calls| - 1];
      WriteLine(cfg, Run(cfg, start, calls[..|calls| - 1]), c.line, c.ts, c.fault)
  }

  function Lines(calls: seq<Call>): string {
    if calls == [] then "" else Lines(calls[..|calls| - 1]) + calls[|calls| - 1].line
  }

  ghost predicate Undisturbed(calls: seq<Call>) {
    forall i :: 0 <= i < |calls| ==> calls[i].fault.NoFault?
  }

  /** One undisturbed write keeps the log valid, open and grown by exactly its line. */
  lemma StepConserves(cfg: Config, s: State, line: string, ts: string)
    requires Valid(cfg, s) && !s.handle.ClosedFile?
    ensures var s' := WriteLine(cfg, s, line, ts, NoFault);
      Valid(cfg, s') && !s'.handle.ClosedFile? && Everything(cfg, s') == Everything(cfg, s) + line
  {
    WriteConserves(cfg, s, line, ts, NoFault);
  }

  lemma RunStep(cfg: Config, start: State, calls: seq<Call>, c: Call)
    ensures Run(cfg, start, calls + [c]) == WriteLine(cfg, Run(cfg, start, calls), c.line, c.ts, c.fault)
    ensures Lines(calls + [c]) == Lines(calls) + c.line
  {
    assert (calls + [c])[..|calls|] == calls;
  }

  /** Over a run without file errors the rotated files in order, then the current
      file, hold the initial content followed by every line in order. */
  lemma {:induction false} LogIsConserved(cfg: Config, start: State, calls: seq<Call>)
    requires Valid(cfg, start) && !start.handle.ClosedFile? && Undisturbed(calls)
    ensures var s := Run(cfg, start, calls);
      && Valid(cfg, s) && !s.handle.ClosedFile?
      && Everything(cfg, s) == Everything(cfg, start) + Lines(calls)
    decreases |calls|
  {
    if calls == [] {
      assert Everything(cfg, start) + "" == Everything(cfg, start);
    } else {
      var front, c := calls[..|calls| - 1], calls[|calls| - 1];
      assert calls == front + [c] && Undisturbed(front);
      LogIsConserved(cfg, start, front);
      StepConserves(cfg, Run(cfg, start, front), c.line, c.ts);
      RunStep(cfg, start, front, c);
      Assoc(Everything(cfg, start), Lines(front), c.line);
    }
  }

  lemma Assoc(a: string, b: string, c: string)
    ensures (a + b) + c == a + (b + c)
  {}

  /** A rotation that fails after closing the file leaves a dead handle: no later line
      is ever written. */
  lemma {:induction false} DeadHandleStaysDead(cfg: Config, start: State, calls: seq<Call>)
    requires start.handle.ClosedFile?
    ensures Run(cfg, start, calls) == start
  {
    if calls != [] { DeadHandleStaysDead(cfg, start, calls[..|calls| - 1]); }
  }

  /** The handle dies exactly when the line does not fit and the rotation fails from the
      close on. */
  lemma HandleDiesIff(cfg: Config, s: State, line: string, ts: string, fault: Fault)
    requires !s.handle.ClosedFile?
    ensures WriteLine(cfg, s, line, ts, fault).handle.ClosedFile? <==>
      |Current(cfg, s)| + |line| > cfg.maxSize && (fault.CloseFault? || fault.NameFault? || fault.RenameFault? || fault.ReopenFault?)
  {}

  // ---------- when the log rotates, and what each failure leaves ----------

  /** A line that fits is appended, and nothing else changes. */
  lemma FittingLineIsAppended(cfg: Config, s: State, line: string, ts: string)
    requires !s.handle.ClosedFile? && |Current(cfg, s)| + |line| <= cfg.maxSize
    ensures var s' := WriteLine(cfg, s, line, ts, NoFault);
      && s'.rotated == s.rotated && s'.handle == OpenFile
      && s'.files == s.files[cfg.Path() := Current(cfg, s) + line]
  {
    assert s.files[cfg.Path() := Current(cfg, s)][cfg.Path() := Current(cfg, s) + line] == s.files[cfg.Path() := Current(cfg, s) + line];
  }

  /** A line that does not fit goes to an empty file, and the old content to one new file
      under a name that was free. */
  lemma LongLineRotates(cfg: Config, s: State, line: string, ts: string)
    requires !s.handle.ClosedFile? && Valid(cfg, s) && |Current(cfg, s)| + |line| > cfg.maxSize
    ensures var s' := WriteLine(cfg, s, line, ts, NoFault);
      && |s'.rotated| == |s.rotated| + 1 && s'.rotated[..|s.rotated|] == s.rotated && s'.handle == OpenFile
      && var name := s'.rotated[|s.rotated|];
      && name !in s.files && name != cfg.Path() && (exists k: nat :: k >= 1 && name == cfg.Candidate(ts, k))
      && s'.files == s.files[name := Current(cfg, s)][cfg.Path() := line]
  {
    var o := EnsureOpen(cfg, s);
    var k := FirstFree(cfg, o.files, ts, 1);
    var name := cfg.Candidate(ts, k);
    var m := Moved(cfg, o, ts);
    assert "" + line == line && Current(cfg, o) == Current(cfg, s) && name != cfg.Path();
    var was, now := m.files[cfg.Path() := ""][cfg.Path() := line], s.files[name := Current(cfg, s)][cfg.Path() := line];
    assert was.Keys == now.Keys;
    assert forall p :: p in now ==> was[p] == now[p];
    assert (s.rotated + [name])[..|s.rotated|] == s.rotated;
  }

  /** What a failing system call leaves of a write on an open file: before the close,
      everything as it was; from the close to the rename, the files as they were and a
      dead handle; at the reopening, the rotated file, no current one and a dead handle;
      at the write, as much of the line as was written. */
  lemma FaultOutcome(cfg: Config, s: State, line: string, ts: string, fault: Fault)
    requires s.handle.OpenFile? && cfg.Path() in s.files
    ensures var s' := WriteLine(cfg, s, line, ts, fault);
            var due := |Current(cfg, s)| + |line| > cfg.maxSize;
      && (fault.StatFault? || (due && fault.SyncFault?) ==> s' == s)
      && (due && (fault.CloseFault? || fault.NameFault? || fault.RenameFault?) ==>
            s'.files == s.files && s'.rotated == s.rotated && s'.handle == ClosedFile)
      && (due && fault.ReopenFault? ==>
            s'.handle == ClosedFile && cfg.Path() !in s'.files && |s'.rotated| == |s.rotated| + 1)
      && (!due && fault.WriteFault? ==>
            s' == s.(files := s.files[cfg.Path() := Current(cfg, s) + if fault.written < |line| then line[..fault.written] else line]))
  {}

  /** A log that cannot be opened is left alone, and opened at the next line. */
  lemma OpenFaultIsRetried(cfg: Config, s: State, line: string, ts: string)
    requires s.handle.NoFile?
    ensures WriteLine(cfg, s, line, ts, OpenFault) == s
    ensures WriteLine(cfg, s, line, ts, NoFault).handle == OpenFile
  {}

  /** Names as they appear in the directory. */
  lemma NameExample()
    ensures var cfg := Config("d", "app", ".log", 1000);
      cfg.Path() == "d/app.log" && cfg.Candidate("ts", 2) == "d/app_ts_2.log"
  {
    assert Decimal.PrintNat(2) == "2";
  }
}
