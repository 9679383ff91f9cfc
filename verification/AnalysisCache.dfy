/** The analysis cache as processes that read, write and rename files, and may stop at any point. */
module AnalysisCache {
  import opened Bytes
  import opened Options

  type Digest = int

  /** The options of a build; `cascade` names a proposal artifact that is read while building. */
  datatype BuildOptions = BuildOptions(cascade: Option<string>, others: int)

  datatype HeaderLayout = Legacy | Modern
  datatype FunctionLayout = Legacy16 | Modern12

  /** The opcode table and the header layouts the bytes are read with. */
  datatype FileReading = FileReading(format: nat, header: HeaderLayout, functions: FunctionLayout)

  /** One invocation: the input's bytes, the decompiler build, the options, and how the bytes are read. */
  datatype Job = Job(bytes: seq<Byte>, build: int, options: BuildOptions, reading: FileReading)

  /** Jobs that ask for the same cache entry: it is filed under the bytes, the build and the options. */
  predicate SameKey(a: Job, b: Job) {
    a.bytes == b.bytes && a.build == b.build && a.options == b.options
  }

  /** What is stored of a context. */
  datatype Snapshot = Snapshot(closureContext: int, rest: int)

  /** A context: its stored part, what is recomputed from it, and names from a cascade artifact. */
  datatype Context = Context(snapshot: Snapshot, derived: int, cascadeNames: map<int, string>)

  datatype CacheHeader = CacheHeader(magic: seq<char>, version: nat, fileHash: Digest, binaryHash: Digest, optionsKey: int) {
    predicate Matches(want: CacheHeader) {
      && magic == want.magic && version == want.version && fileHash == want.fileHash
      && binaryHash == want.binaryHash && optionsKey == want.optionsKey
    }
  }

  const MAGIC := "HDC1"
  const CACHE_VERSION: nat := 10

  /** Digests, serialisation, the reading a build takes from the bytes alone, and the analysis itself. */
  datatype World = World(
    hashBytes: seq<Byte> -> Digest,
    hashBuild: int -> Digest,
    optionsKey: BuildOptions -> int,
    plainReading: (seq<Byte>, int) -> FileReading,
    analyse: Job -> Option<Context>,
    derive: Snapshot -> int,
    encodeHeader: CacheHeader -> seq<Byte>,
    encodeSnapshot: Snapshot -> seq<Byte>,
    decodeHeader: seq<Byte> -> Option<(CacheHeader, seq<Byte>)>,
    decodeSnapshot: seq<Byte> -> Option<Snapshot>)
  {
    /** The reading is not part of it. */
    function HeaderOf(job: Job): CacheHeader {
      CacheHeader(MAGIC, CACHE_VERSION, hashBytes(job.bytes), hashBuild(job.build), optionsKey(job.options))
    }

    /** A complete cache file. */
    function Entry(job: Job, ctx: Context): seq<Byte> {
      encodeHeader(HeaderOf(job)) + encodeSnapshot(ctx.snapshot)
    }

    function FromSnapshot(snapshot: Snapshot): Context {
      Context(snapshot, derive(snapshot), map[])
    }

    /** What a file of these bytes gives a process that wants `job`. */
    function Load(content: seq<Byte>, job: Job): Option<Context> {
      var (header, rest) :- decodeHeader(content);
      if !header.Matches(HeaderOf(job)) then None
      else
        var snapshot :- decodeSnapshot(rest);
        Some(FromSnapshot(snapshot))
    }

    /** Digests do not collide. */
    ghost predicate Injective() {
      && (forall a, b :: hashBytes(a) == hashBytes(b) ==> a == b)
      && (forall a, b :: hashBuild(a) == hashBuild(b) ==> a == b)
      && (forall a, b :: optionsKey(a) == optionsKey(b) ==> a == b)
    }

    /** What was written first is read first, whatever follows it. */
    ghost predicate Serialises() {
      && (forall h, rest :: decodeHeader(encodeHeader(h) + rest) == Some((h, rest)))
      && (forall s :: decodeSnapshot(encodeSnapshot(s)) == Some(s))
    }

    /** Without an artifact, a context is its snapshot and what follows from it. */
    ghost predicate BuildsFromSnapshots() {
      forall job: Job {:trigger analyse(job)} :: job.options.cascade.None? && analyse(job).Some? ==>
        analyse(job).value == FromSnapshot(analyse(job).value.snapshot)
    }

    ghost predicate Good() {
      Injective() && Serialises() && BuildsFromSnapshots()
    }
  }

  // ---------- Files and processes

  type Pid = int
  type Inode = int

  /** The cache path, and each process's temporary file next to it. */
  datatype Name = CachePath | Temp(pid: Pid)

  datatype Phase =
    | Starting
    | Reading(file: Inode, got: seq<Byte>)
    | Missed
    | Built(ctx: Context)
    | Writing(file: Inode, ctx: Context, written: nat)
    | Done(result: Option<Context>)

  datatype Process = Process(job: Job, phase: Phase)

  /** `published` are the files that have been at the cache path. */
  datatype State = State(names: map<Name, Inode>, files: map<Inode, seq<Byte>>, next: Inode,
                         processes: map<Pid, Process>, published: set<Inode>)

  datatype Action =
    | Begin(pid: Pid, job: Job)
    | Bypass(pid: Pid)
    | Open(pid: Pid)
    | ReadSome(pid: Pid, n: nat)
    | GiveUpReading(pid: Pid)
    | FinishReading(pid: Pid)
    | Analyse(pid: Pid)
    | CreateTemp(pid: Pid)
    | WriteSome(pid: Pid, n: nat)
    | GiveUpSaving(pid: Pid)
    | Rename(pid: Pid)
    | Crash(pid: Pid)

  predicate Running(s: State, pid: Pid) {
    pid in s.processes && !s.processes[pid].phase.Done?
  }

  function PhaseOf(s: State, pid: Pid): Phase {
    if pid in s.processes then s.processes[pid].phase else Done(None)
  }

  function Moved(s: State, pid: Pid, phase: Phase): State
    requires pid in s.processes
  {
    s.(processes := s.processes[pid := s.processes[pid].(phase := phase)])
  }

  ghost function Data(w: World, s: State, pid: Pid): seq<Byte>
    requires pid in s.processes && s.processes[pid].phase.Writing?
  {
    w.Entry(s.processes[pid].job, s.processes[pid].phase.ctx)
  }

  /** A process number is used again only once its process has ended. */
  ghost predicate Enabled(w: World, s: State, a: Action) {
    match a
    case Begin(pid, _) => !Running(s, pid)
    case Bypass(pid) => PhaseOf(s, pid).Starting? && s.processes[pid].job.options.cascade.Some?
    case Open(pid) => PhaseOf(s, pid).Starting? && s.processes[pid].job.options.cascade.None?
    case ReadSome(pid, n) =>
      && PhaseOf(s, pid).Reading? && PhaseOf(s, pid).file in s.files
      && |PhaseOf(s, pid).got| + n <= |s.files[PhaseOf(s, pid).file]|
    case GiveUpReading(pid) => PhaseOf(s, pid).Reading? || (PhaseOf(s, pid).Starting? && s.processes[pid].job.options.cascade.None?)
    case FinishReading(pid) =>
      && PhaseOf(s, pid).Reading? && PhaseOf(s, pid).file in s.files
      && |PhaseOf(s, pid).got| == |s.files[PhaseOf(s, pid).file]|
    case Analyse(pid) => PhaseOf(s, pid).Missed?
    case CreateTemp(pid) => PhaseOf(s, pid).Built?
    case WriteSome(pid, n) =>
      && PhaseOf(s, pid).Writing? && PhaseOf(s, pid).file in s.files
      && PhaseOf(s, pid).written + n <= |Data(w, s, pid)|
    case GiveUpSaving(pid) => PhaseOf(s, pid).Built? || PhaseOf(s, pid).Writing?
    case Rename(pid) =>
      PhaseOf(s, pid).Writing? && PhaseOf(s, pid).written == |Data(w, s, pid)| && Temp(pid) in s.names
    case Crash(pid) => pid in s.processes
  }

  ghost function Next(w: World, s: State, a: Action): State
    requires Enabled(w, s, a)
  {
    match a
    case Begin(pid, job) => s.(processes := s.processes[pid := Process(job, Starting)])
    case Bypass(pid) => Moved(s, pid, Done(w.analyse(s.processes[pid].job)))
    case Open(pid) =>
      if CachePath in s.names then Moved(s, pid, Reading(s.names[CachePath], [])) else Moved(s, pid, Missed)
    case ReadSome(pid, n) =>
      var r := s.processes[pid].phase;
      Moved(s, pid, Reading(r.file, r.got + s.files[r.file][|r.got|..|r.got| + n]))
    case GiveUpReading(pid) => Moved(s, pid, Missed)
    case FinishReading(pid) =>
      var loaded := w.Load(s.processes[pid].phase.got, s.processes[pid].job);
      Moved(s, pid, if loaded.Some? then Done(loaded) else Missed)
    case Analyse(pid) =>
      var built := w.analyse(s.processes[pid].job);
      Moved(s, pid, if built.Some? then Built(built.value) else Done(None))
    case CreateTemp(pid) => Created(s, pid)
    case WriteSome(pid, n) =>
      var p := s.processes[pid].phase;
      var more := Data(w, s, pid)[p.written..p.written + n];
      Moved(s.(files := s.files[p.file := s.files[p.file] + more]), pid, p.(written := p.written + n))
    case GiveUpSaving(pid) => Moved(s, pid, Done(Some(s.processes[pid].phase.ctx)))
    case Rename(pid) =>
      var inode := s.names[Temp(pid)];
      Moved(s.(names := (s.names - {Temp(pid)})[CachePath := inode], published := s.published + {inode}),
            pid, Done(Some(s.processes[pid].phase.ctx)))
    case Crash(pid) => s.(processes := s.processes - {pid})
  }

  /** Creating a file that is there already empties it. */
  function Created(s: State, pid: Pid): State
    requires pid in s.processes && s.processes[pid].phase.Built?
  {
    var ctx := s.processes[pid].phase.ctx;
    if Temp(pid) in s.names then
      var inode := s.names[Temp(pid)];
      Moved(s.(files := s.files[inode := []]), pid, Writing(inode, ctx, 0))
    else
      Moved(s.(names := s.names[Temp(pid) := s.next], files := s.files[s.next := []], next := s.next + 1),
            pid, Writing(s.next, ctx, 0))
  }

  ghost predicate Runs(w: World, s: State, actions: seq<Action>)
    decreases |actions|
  {
    actions != [] ==> Enabled(w, s, actions[0]) && Runs(w, Next(w, s, actions[0]), actions[1..])
  }

  ghost function After(w: World, s: State, actions: seq<Action>): State
    requires Runs(w, s, actions)
    decreases |actions|
  {
    if actions == [] then s else After(w, Next(w, s, actions[0]), actions[1..])
  }

  // ---------- What every step keeps

  /** One complete header and snapshot, of a build without an artifact for one of the jobs. */
  ghost predicate Complete(w: World, jobs: iset<Job>, content: seq<Byte>) {
    exists job :: job in jobs && job.options.cascade.None? && w.analyse(job).Some? && content == w.Entry(job, w.analyse(job).value)
  }

  /** What building gives under the reading of some job with the same key. */
  ghost predicate BuiltUnderSome(w: World, jobs: iset<Job>, job: Job, result: Option<Context>) {
    exists other :: other in jobs && SameKey(other, job) && result == w.analyse(other)
  }

  ghost predicate NamesOk(s: State) {
    && (forall name :: name in s.names ==> s.names[name] in s.files)
    && (forall pid, qid :: Temp(pid) in s.names && Temp(qid) in s.names && s.names[Temp(pid)] == s.names[Temp(qid)] ==> pid == qid)
    && (forall pid :: Temp(pid) in s.names ==> s.names[Temp(pid)] !in s.published)
    && (CachePath in s.names ==> s.names[CachePath] in s.published)
  }

  ghost predicate FilesOk(w: World, jobs: iset<Job>, s: State) {
    && (forall i :: i in s.files ==> i < s.next)
    && (forall i :: i in s.published ==> i in s.files && Complete(w, jobs, s.files[i]))
  }

  /** What a process holds is what building its job gives; what it returns is what building gives
      under the reading of some job with its key, and of its own job when there is an artifact. */
  ghost predicate ProcessOk(w: World, jobs: iset<Job>, s: State, pid: Pid)
    requires pid in s.processes
  {
    var p := s.processes[pid];
    && p.job in jobs
    && (p.job.options.cascade.Some? ==> p.phase.Starting? || p.phase.Done?)
    && match p.phase
       case Reading(file, got) => file in s.published && file in s.files && got <= s.files[file]
       case Built(ctx) => w.analyse(p.job) == Some(ctx)
       case Writing(file, ctx, written) =>
         && w.analyse(p.job) == Some(ctx) && Temp(pid) in s.names && s.names[Temp(pid)] == file && file in s.files
         && written <= |w.Entry(p.job, ctx)| && s.files[file] == w.Entry(p.job, ctx)[..written]
       case Done(result) =>
         if p.job.options.cascade.Some? then result == w.analyse(p.job) else BuiltUnderSome(w, jobs, p.job, result)
       case _ => true
  }

  ghost predicate Inv(w: World, jobs: iset<Job>, s: State) {
    NamesOk(s) && FilesOk(w, jobs, s) && forall pid :: pid in s.processes ==> ProcessOk(w, jobs, s, pid)
  }

  /** The entry saved for one job is accepted for another exactly when they have the same key, and
      then gives what building the first one gives. */
  lemma SavedIsLoaded(w: World, saved: Job, job: Job)
    requires w.Good() && saved.options.cascade.None? && w.analyse(saved).Some?
    ensures w.Load(w.Entry(saved, w.analyse(saved).value), job) == if SameKey(saved, job) then w.analyse(saved) else None
  {
    var header, snapshot := w.HeaderOf(saved), w.analyse(saved).value.snapshot;
    assert w.decodeHeader(w.encodeHeader(header) + w.encodeSnapshot(snapshot)) == Some((header, w.encodeSnapshot(snapshot)));
  }

  /** A file is accepted exactly when it starts with a header of this kind and version for the job's
      bytes, build and options, and a snapshot follows. */
  lemma AcceptedExactly(w: World, content: seq<Byte>, job: Job, ctx: Context)
    ensures w.Load(content, job) == Some(ctx) <==>
            && w.decodeHeader(content).Some?
            && (var h := w.decodeHeader(content).value.0;
                && h.magic == "HDC1" && h.version == 10 && h.fileHash == w.hashBytes(job.bytes)
                && h.binaryHash == w.hashBuild(job.build) && h.optionsKey == w.optionsKey(job.options))
            && exists s :: w.decodeSnapshot(w.decodeHeader(content).value.1) == Some(s) && ctx == Context(s, w.derive(s), map[])
  {
    if w.decodeHeader(content).Some? {
      var snapshot := w.decodeSnapshot(w.decodeHeader(content).value.1);
      assert snapshot.Some? ==> snapshot == Some(snapshot.value);
    }
  }

  /** What a complete entry loads as: a context of the key it was asked for, or nothing. */
  lemma LoadedIsBuilt(w: World, jobs: iset<Job>, content: seq<Byte>, job: Job)
    requires w.Good() && Complete(w, jobs, content)
    ensures w.Load(content, job).Some? ==> BuiltUnderSome(w, jobs, job, w.Load(content, job))
  {
    var saved :| saved in jobs && saved.options.cascade.None? && w.analyse(saved).Some? && content == w.Entry(saved, w.analyse(saved).value);
    SavedIsLoaded(w, saved, job);
  }

  /** A change of one process's phase alone. */
  lemma MovedOk(w: World, jobs: iset<Job>, s: State, pid: Pid, phase: Phase)
    requires Inv(w, jobs, s) && pid in s.processes && ProcessOk(w, jobs, Moved(s, pid, phase), pid)
    ensures Inv(w, jobs, Moved(s, pid, phase))
  {
    var t := Moved(s, pid, phase);
    forall q | q in t.processes
      ensures ProcessOk(w, jobs, t, q)
    {
      assert q in s.processes && ProcessOk(w, jobs, s, q);
    }
  }

  lemma BeginOk(w: World, jobs: iset<Job>, s: State, pid: Pid, job: Job)
    requires Inv(w, jobs, s) && job in jobs
    ensures Inv(w, jobs, s.(processes := s.processes[pid := Process(job, Starting)]))
  {
    var t := s.(processes := s.processes[pid := Process(job, Starting)]);
    forall q | q in t.processes
      ensures ProcessOk(w, jobs, t, q)
    {
      if q != pid {
        assert ProcessOk(w, jobs, s, q);
      }
    }
  }

  lemma CrashOk(w: World, jobs: iset<Job>, s: State, pid: Pid)
    requires Inv(w, jobs, s)
    ensures Inv(w, jobs, s.(processes := s.processes - {pid}))
  {
    var t := s.(processes := s.processes - {pid});
    forall q | q in t.processes
      ensures ProcessOk(w, jobs, t, q)
    {
      assert ProcessOk(w, jobs, s, q);
    }
  }

  lemma ReadSomeOk(w: World, jobs: iset<Job>, s: State, pid: Pid, n: nat)
    requires Inv(w, jobs, s) && Enabled(w, s, ReadSome(pid, n))
    ensures Inv(w, jobs, Next(w, s, ReadSome(pid, n)))
  {
    assert ProcessOk(w, jobs, s, pid);
    var r := s.processes[pid].phase;
    var content := s.files[r.file];
    assert r.got + content[|r.got|..|r.got| + n] == content[..|r.got| + n];
    MovedOk(w, jobs, s, pid, Reading(r.file, content[..|r.got| + n]));
  }

  lemma FinishReadingOk(w: World, jobs: iset<Job>, s: State, pid: Pid)
    requires w.Good() && Inv(w, jobs, s) && Enabled(w, s, FinishReading(pid))
    ensures Inv(w, jobs, Next(w, s, FinishReading(pid)))
  {
    assert ProcessOk(w, jobs, s, pid);
    var p := s.processes[pid];
    assert p.phase.got == s.files[p.phase.file];
    LoadedIsBuilt(w, jobs, p.phase.got, p.job);
    var loaded := w.Load(p.phase.got, p.job);
    MovedOk(w, jobs, s, pid, if loaded.Some? then Done(loaded) else Missed);
  }

  /** Other processes do not notice what happens to one process's temporary file. */
  lemma OthersOk(w: World, jobs: iset<Job>, s: State, t: State, pid: Pid, q: Pid)
    requires Inv(w, jobs, s) && q in s.processes && q != pid
    requires q in t.processes && t.processes[q] == s.processes[q]
    requires s.published <= t.published
    requires Temp(q) in s.names ==> Temp(q) in t.names && t.names[Temp(q)] == s.names[Temp(q)]
    requires forall i :: i in s.files && (i in s.published || (Temp(q) in s.names && i == s.names[Temp(q)])) ==>
               i in t.files && t.files[i] == s.files[i]
    ensures ProcessOk(w, jobs, t, q)
  {
    assert ProcessOk(w, jobs, s, q);
  }

  lemma CreateTempOk(w: World, jobs: iset<Job>, s: State, pid: Pid)
    requires Inv(w, jobs, s) && Enabled(w, s, CreateTemp(pid))
    ensures Inv(w, jobs, Next(w, s, CreateTemp(pid)))
  {
    var t := Created(s, pid);
    assert ProcessOk(w, jobs, s, pid);
    forall i | i in t.published
      ensures i in t.files && Complete(w, jobs, t.files[i])
    {
      assert i in s.files && Complete(w, jobs, s.files[i]) && i < s.next;
      assert t.files[i] == s.files[i];
    }
    forall q | q in t.processes
      ensures ProcessOk(w, jobs, t, q)
    {
      if q != pid {
        OthersOk(w, jobs, s, t, pid, q);
      } else {
        assert w.Entry(s.processes[pid].job, s.processes[pid].phase.ctx)[..0] == [];
      }
    }
  }

  lemma WriteSomeOk(w: World, jobs: iset<Job>, s: State, pid: Pid, n: nat)
    requires Inv(w, jobs, s) && Enabled(w, s, WriteSome(pid, n))
    ensures Inv(w, jobs, Next(w, s, WriteSome(pid, n)))
  {
    var t := Next(w, s, WriteSome(pid, n));
    assert ProcessOk(w, jobs, s, pid);
    var p, data := s.processes[pid].phase, Data(w, s, pid);
    assert data[..p.written] + data[p.written..p.written + n] == data[..p.written + n];
    forall i | i in t.published
      ensures i in t.files && Complete(w, jobs, t.files[i])
    {
      assert i in s.files && Complete(w, jobs, s.files[i]);
      assert t.files[i] == s.files[i];
    }
    forall q | q in t.processes
      ensures ProcessOk(w, jobs, t, q)
    {
      if q != pid {
        OthersOk(w, jobs, s, t, pid, q);
      }
    }
  }

  /** A complete temporary file takes the place of the cache in one step. */
  lemma RenameOk(w: World, jobs: iset<Job>, s: State, pid: Pid)
    requires Inv(w, jobs, s) && Enabled(w, s, Rename(pid))
    ensures Inv(w, jobs, Next(w, s, Rename(pid)))
  {
    var t := Next(w, s, Rename(pid));
    assert ProcessOk(w, jobs, s, pid);
    var p, inode := s.processes[pid], s.names[Temp(pid)];
    var data := w.Entry(p.job, p.phase.ctx);
    assert data[..|data|] == data;
    assert s.files[inode] == data && Complete(w, jobs, data) by {
      assert w.analyse(p.job) == Some(p.phase.ctx);
    }
    forall q | q in t.processes
      ensures ProcessOk(w, jobs, t, q)
    {
      if q != pid {
        OthersOk(w, jobs, s, t, pid, q);
      }
    }
  }

  /** Every step of every process keeps the cache path whole. */
  lemma StepKeepsInv(w: World, jobs: iset<Job>, s: State, a: Action)
    requires w.Good() && Inv(w, jobs, s) && Enabled(w, s, a) && (a.Begin? ==> a.job in jobs)
    ensures Inv(w, jobs, Next(w, s, a))
  {
    if a.pid in s.processes {
      assert ProcessOk(w, jobs, s, a.pid);
    }
    match a
    case Begin(pid, job) => BeginOk(w, jobs, s, pid, job);
    case Bypass(pid) => MovedOk(w, jobs, s, pid, Done(w.analyse(s.processes[pid].job)));
    case Open(pid) =>
      if CachePath in s.names {
        MovedOk(w, jobs, s, pid, Reading(s.names[CachePath], []));
      } else {
        MovedOk(w, jobs, s, pid, Missed);
      }
    case ReadSome(pid, n) => ReadSomeOk(w, jobs, s, pid, n);
    case GiveUpReading(pid) => MovedOk(w, jobs, s, pid, Missed);
    case FinishReading(pid) => FinishReadingOk(w, jobs, s, pid);
    case Analyse(pid) =>
      var built := w.analyse(s.processes[pid].job);
      MovedOk(w, jobs, s, pid, if built.Some? then Built(built.value) else Done(None));
    case CreateTemp(pid) => CreateTempOk(w, jobs, s, pid);
    case WriteSome(pid, n) => WriteSomeOk(w, jobs, s, pid, n);
    case GiveUpSaving(pid) => MovedOk(w, jobs, s, pid, Done(Some(s.processes[pid].phase.ctx)));
    case Rename(pid) => RenameOk(w, jobs, s, pid);
    case Crash(pid) => CrashOk(w, jobs, s, pid);
  }

  const EMPTY := State(map[], map[], 0, map[], {})

  /** Every job a run begins is one of these. */
  ghost predicate BeginsOnly(actions: seq<Action>, jobs: iset<Job>) {
    forall k :: 0 <= k < |actions| && actions[k].Begin? ==> actions[k].job in jobs
  }

  ghost function JobsBegun(actions: seq<Action>): iset<Job> {
    iset k | 0 <= k < |actions| && actions[k].Begin? :: actions[k].job
  }

  lemma {:induction false} RunsKeepInv(w: World, jobs: iset<Job>, s: State, actions: seq<Action>)
    requires w.Good() && Inv(w, jobs, s) && Runs(w, s, actions) && BeginsOnly(actions, jobs)
    ensures Inv(w, jobs, After(w, s, actions))
    decreases |actions|
  {
    if actions != [] {
      StepKeepsInv(w, jobs, s, actions[0]);
      RunsKeepInv(w, jobs, Next(w, s, actions[0]), actions[1..]);
    }
  }

  /** In every interleaving of processes that crash where they will, the cache path is absent or holds
      one complete entry, and a process returns what building its bytes with its build and options gives
      under the reading of some job begun in the run; with an artifact, under its own. */
  lemma ResultsAreBuilds(w: World, actions: seq<Action>)
    requires w.Good() && Runs(w, EMPTY, actions)
    ensures var s, jobs := After(w, EMPTY, actions), JobsBegun(actions);
            && (CachePath in s.names ==> s.names[CachePath] in s.files && Complete(w, jobs, s.files[s.names[CachePath]]))
            && (forall pid :: pid in s.processes && s.processes[pid].phase.Done? ==>
                  var job, result := s.processes[pid].job, s.processes[pid].phase.result;
                  if job.options.cascade.Some? then result == w.analyse(job) else BuiltUnderSome(w, jobs, job, result))
  {
    var jobs := JobsBegun(actions);
    RunsKeepInv(w, jobs, EMPTY, actions);
    var s := After(w, EMPTY, actions);
    if CachePath in s.names {
      var file := s.names[CachePath];
      assert file in s.published && Complete(w, jobs, s.files[file]);
    }
    forall pid | pid in s.processes && s.processes[pid].phase.Done?
      ensures var job, result := s.processes[pid].job, s.processes[pid].phase.result;
              if job.options.cascade.Some? then result == w.analyse(job) else BuiltUnderSome(w, jobs, job, result)
    {
      assert ProcessOk(w, jobs, s, pid);
    }
  }

  // ---------- When results are right

  /** Every process that is done has what building its own job gives. */
  ghost predicate ResultsRight(w: World, s: State) {
    forall pid :: pid in s.processes && s.processes[pid].phase.Done? ==> s.processes[pid].phase.result == w.analyse(s.processes[pid].job)
  }

  /** However processes for these jobs are interleaved, results are right. */
  ghost predicate AlwaysRight(w: World, jobs: iset<Job>) {
    forall actions: seq<Action> :: Runs(w, EMPTY, actions) && BeginsOnly(actions, jobs) ==> ResultsRight(w, After(w, EMPTY, actions))
  }

  /** Cached jobs with the same key build the same. */
  ghost predicate BuildsAgree(w: World, jobs: iset<Job>) {
    forall a, b :: a in jobs && b in jobs && SameKey(a, b) && a.options.cascade.None? ==> w.analyse(a) == w.analyse(b)
  }

  /** Cached jobs with the same key are read the same way. */
  ghost predicate OneReadingPerKey(jobs: iset<Job>) {
    forall a, b :: a in jobs && b in jobs && SameKey(a, b) && a.options.cascade.None? ==> a.reading == b.reading
  }

  lemma StepFirst(w: World, s: State, a: Action, rest: seq<Action>)
    requires Enabled(w, s, a) && Runs(w, Next(w, s, a), rest)
    ensures Runs(w, s, [a] + rest) && After(w, s, [a] + rest) == After(w, Next(w, s, a), rest)
  {
    assert ([a] + rest)[1..] == rest;
  }

  /** One process builds a job and saves it. */
  function Saving(job: Job, len: nat): seq<Action> {
    [Begin(1, job)] + ([Open(1)] + ([Analyse(1)] + ([CreateTemp(1)] + ([WriteSome(1, len)] + ([Rename(1)] + [])))))
  }

  /** Another one asks for a job and reads what is there. */
  function Loading(job: Job, len: nat): seq<Action> {
    [Begin(2, job)] + ([Open(2)] + ([ReadSome(2, len)] + ([FinishReading(2)] + [])))
  }

  lemma SavingRuns(w: World, job: Job)
    requires job.options.cascade.None? && w.analyse(job).Some?
    ensures var data := w.Entry(job, w.analyse(job).value);
            && Runs(w, EMPTY, Saving(job, |data|))
            && var s := After(w, EMPTY, Saving(job, |data|));
               s.names == map[CachePath := 0] && s.files == map[0 := data] && s.processes.Keys == {1}
  {
    var ctx := w.analyse(job).value;
    var data := w.Entry(job, ctx);
    var s1 := Next(w, EMPTY, Begin(1, job));
    var s2 := Next(w, s1, Open(1));
    var s3 := Next(w, s2, Analyse(1));
    var s4 := Next(w, s3, CreateTemp(1));
    assert s4.names == map[Temp(1) := 0] && s4.files == map[0 := []];
    var s5 := Next(w, s4, WriteSome(1, |data|));
    assert s5.files == map[0 := data] by {
      assert [] + data[0..|data|] == data;
    }
    var s6 := Next(w, s5, Rename(1));
    assert s6.names == map[CachePath := 0];
    StepFirst(w, s5, Rename(1), []);
    StepFirst(w, s4, WriteSome(1, |data|), [Rename(1)] + []);
    StepFirst(w, s3, CreateTemp(1), [WriteSome(1, |data|)] + ([Rename(1)] + []));
    StepFirst(w, s2, Analyse(1), [CreateTemp(1)] + ([WriteSome(1, |data|)] + ([Rename(1)] + [])));
    StepFirst(w, s1, Open(1), [Analyse(1)] + ([CreateTemp(1)] + ([WriteSome(1, |data|)] + ([Rename(1)] + []))));
    StepFirst(w, EMPTY, Begin(1, job), [Open(1)] + ([Analyse(1)] + ([CreateTemp(1)] + ([WriteSome(1, |data|)] + ([Rename(1)] + [])))));
  }

  lemma LoadingRuns(w: World, s: State, job: Job, data: seq<Byte>)
    requires job.options.cascade.None? && w.Load(data, job).Some?
    requires s.names == map[CachePath := 0] && s.files == map[0 := data] && s.processes.Keys == {1}
    ensures Runs(w, s, Loading(job, |data|))
    ensures var t := After(w, s, Loading(job, |data|)); 2 in t.processes && t.processes[2] == Process(job, Done(w.Load(data, job)))
  {
    var s1 := Next(w, s, Begin(2, job));
    var s2 := Next(w, s1, Open(2));
    var s3 := Next(w, s2, ReadSome(2, |data|));
    assert s3.processes[2].phase == Reading(0, data) by {
      assert [] + data[0..|data|] == data;
    }
    StepFirst(w, s3, FinishReading(2), []);
    StepFirst(w, s2, ReadSome(2, |data|), [FinishReading(2)] + []);
    StepFirst(w, s1, Open(2), [ReadSome(2, |data|)] + ([FinishReading(2)] + []));
    StepFirst(w, s, Begin(2, job), [Open(2)] + ([ReadSome(2, |data|)] + ([FinishReading(2)] + [])));
  }

  lemma {:induction false} RunsOn(w: World, s: State, first: seq<Action>, rest: seq<Action>)
    requires Runs(w, s, first) && Runs(w, After(w, s, first), rest)
    ensures Runs(w, s, first + rest) && After(w, s, first + rest) == After(w, After(w, s, first), rest)
    decreases |first|
  {
    if first == [] {
      assert first + rest == rest;
    } else {
      assert (first + rest)[1..] == first[1..] + rest;
      RunsOn(w, Next(w, s, first[0]), first[1..], rest);
    }
  }

  /** A job is built and saved; then the same bytes are asked for under another reading. */
  ghost function SaveThenLoad(w: World, saved: Job, job: Job): seq<Action>
    requires w.analyse(saved).Some?
  {
    var len := |w.Entry(saved, w.analyse(saved).value)|;
    Saving(saved, len) + Loading(job, len)
  }

  lemma BeginsBoth(saved: Job, job: Job, len: nat)
    ensures BeginsOnly(Saving(saved, len) + Loading(job, len), iset{saved, job})
  {
    var first, second := Saving(saved, len), Loading(job, len);
    var all: seq<Action> := first + second;
    forall k | 0 <= k < |all| && all[k].Begin?
      ensures all[k].job in iset{saved, job}
    {
      if k < |first| {
        assert first[k].Begin? ==> k == 0;
      } else {
        assert second[k - |first|].Begin? ==> k == |first|;
      }
    }
  }

  /** The second process accepts the first one's entry, so it returns the context of another reading. */
  lemma OtherReadingIsReturned(w: World, saved: Job, job: Job)
    requires w.Good() && SameKey(saved, job) && saved.options.cascade.None? && w.analyse(saved).Some?
    ensures var actions := SaveThenLoad(w, saved, job);
            && Runs(w, EMPTY, actions) && BeginsOnly(actions, iset{saved, job})
            && var s := After(w, EMPTY, actions); 2 in s.processes && s.processes[2] == Process(job, Done(w.analyse(saved)))
  {
    var data := w.Entry(saved, w.analyse(saved).value);
    BeginsBoth(saved, job, |data|);
    SavingRuns(w, saved);
    SavedIsLoaded(w, saved, job);
    LoadingRuns(w, After(w, EMPTY, Saving(saved, |data|)), job, data);
    RunsOn(w, EMPTY, Saving(saved, |data|), Loading(job, |data|));
  }

  lemma DifferentBuildsGoWrong(w: World, jobs: iset<Job>, saved: Job, job: Job)
    requires w.Good() && saved in jobs && job in jobs && SameKey(saved, job) && saved.options.cascade.None?
    requires w.analyse(saved).Some? && w.analyse(saved) != w.analyse(job)
    ensures !AlwaysRight(w, jobs)
  {
    OtherReadingIsReturned(w, saved, job);
    var actions := SaveThenLoad(w, saved, job);
    assert BeginsOnly(actions, jobs) by {
      forall k | 0 <= k < |actions| && actions[k].Begin?
        ensures actions[k].job in jobs
      {
        assert actions[k].job in iset{saved, job};
      }
    }
    assert !ResultsRight(w, After(w, EMPTY, actions));
  }

  lemma AgreeingBuildsAreRight(w: World, jobs: iset<Job>, actions: seq<Action>)
    requires w.Good() && BuildsAgree(w, jobs) && Runs(w, EMPTY, actions) && BeginsOnly(actions, jobs)
    ensures ResultsRight(w, After(w, EMPTY, actions))
  {
    RunsKeepInv(w, jobs, EMPTY, actions);
    var s := After(w, EMPTY, actions);
    forall pid | pid in s.processes && s.processes[pid].phase.Done?
      ensures s.processes[pid].phase.result == w.analyse(s.processes[pid].job)
    {
      assert ProcessOk(w, jobs, s, pid);
    }
  }

  /** Every run for these jobs ends right if and only if cached jobs with the same key build the same. */
  lemma AlwaysRightExactly(w: World, jobs: iset<Job>)
    requires w.Good()
    ensures AlwaysRight(w, jobs) <==> BuildsAgree(w, jobs)
  {
    if BuildsAgree(w, jobs) {
      forall actions: seq<Action> | Runs(w, EMPTY, actions) && BeginsOnly(actions, jobs)
        ensures ResultsRight(w, After(w, EMPTY, actions))
      {
        AgreeingBuildsAreRight(w, jobs, actions);
      }
    } else {
      var a, b :| a in jobs && b in jobs && SameKey(a, b) && a.options.cascade.None? && w.analyse(a) != w.analyse(b);
      if w.analyse(a).Some? {
        DifferentBuildsGoWrong(w, jobs, a, b);
      } else {
        DifferentBuildsGoWrong(w, jobs, b, a);
      }
    }
  }

  /** One reading for each key is enough, and needed wherever the reading makes a difference. */
  lemma RightWithOneReading(w: World, jobs: iset<Job>)
    requires w.Good()
    ensures OneReadingPerKey(jobs) ==> AlwaysRight(w, jobs)
    ensures (forall a, b :: a in jobs && b in jobs && SameKey(a, b) && a.reading != b.reading ==> w.analyse(a) != w.analyse(b)) ==>
              (AlwaysRight(w, jobs) <==> OneReadingPerKey(jobs))
  {
    AlwaysRightExactly(w, jobs);
    if OneReadingPerKey(jobs) {
      forall a, b | a in jobs && b in jobs && SameKey(a, b) && a.options.cascade.None?
        ensures w.analyse(a) == w.analyse(b)
      {
        assert a.reading == b.reading && a == b;
      }
    }
  }

  /** When no format and no layout is overridden, results are right. */
  lemma RightWithoutOverrides(w: World, jobs: iset<Job>)
    requires w.Good() && forall job :: job in jobs ==> job.reading == w.plainReading(job.bytes, job.build)
    ensures AlwaysRight(w, jobs)
  {
    RightWithOneReading(w, jobs);
  }

  /** Nothing about hashing and serialising prevents this: with contexts that show the format they were
      decoded with, one run under an overridden format spoils the next one without. */
  lemma OverrideIsServed(w: World, job: Job, format: nat)
    requires w.Good() && job.options.cascade.None? && format != job.reading.format
    ensures var shows := w.(analyse := (j: Job) => Some(w.FromSnapshot(Snapshot(j.reading.format, 0))));
            var overridden := job.(reading := job.reading.(format := format));
            shows.Good() && SameKey(overridden, job) && !AlwaysRight(shows, iset{overridden, job})
  {
    var shows := w.(analyse := (j: Job) => Some(w.FromSnapshot(Snapshot(j.reading.format, 0))));
    var overridden := job.(reading := job.reading.(format := format));
    assert shows.FromSnapshot(Snapshot(format, 0)) == w.FromSnapshot(Snapshot(format, 0));
    DifferentBuildsGoWrong(shows, iset{overridden, job}, overridden, job);
  }
}
