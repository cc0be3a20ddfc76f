/**
 Which files may be deleted when: version references, pending outputs and DeleteObsoleteFiles (db/db_impl.cc:223-278,
 490-566, 700-799 and db/version_set.cc:55-86, 781-874, 1167-1177), with one background thread and any number of
 readers.
 */
module ObsoleteFiles {
  datatype FileName =
    | LogFile(number: nat)
    | DescriptorFile(number: nat)
    | TableFile(number: nat)
    | TempFile(number: nat)
    | CurrentFile
    | LockFile
    | InfoLogFile

  datatype Listed = Listed(refs: nat, files: set<nat>)

  type Versions = map<nat, Listed>

  function Ref(vs: Versions, v: nat): Versions {
    if v in vs then vs[v := Listed(vs[v].refs + 1, vs[v].files)] else vs
  }

  /** The last reference takes the version out of the list. */
  function Unref(vs: Versions, v: nat): Versions {
    if v !in vs then vs
    else if vs[v].refs <= 1 then vs - {v}
    else vs[v := Listed(vs[v].refs - 1, vs[v].files)]
  }

  /** AppendVersion: the new version is referenced as the current one, the old one no longer. */
  function Append(vs: Versions, current: nat, id: nat, files: set<nat>): Versions {
    Unref(vs, current)[id := Listed(1, files)]
  }

  /** The files of all versions in the list. */
  ghost function Live(vs: Versions): set<nat> {
    set v, n | v in vs && n in vs[v].files :: n
  }

  predicate Keep(name: FileName, live: set<nat>, logNumber: nat, prevLogNumber: nat, manifestNumber: nat) {
    match name
    case LogFile(n) => n >= logNumber || n == prevLogNumber
    case DescriptorFile(n) => n >= manifestNumber
    case TableFile(n) => n in live
    case TempFile(n) => n in live
    case _ => true
  }

  function Kept(disk: set<FileName>, live: set<nat>, logNumber: nat, prevLogNumber: nat,
                manifestNumber: nat): set<FileName>
  {
    set name | name in disk && Keep(name, live, logNumber, prevLogNumber, manifestNumber)
  }

  // ----- the steps -----

  /** CompactMemTable: `out` is the table, `made` whether it was written; it is no longer pending once Built. */
  datatype Flush =
    | NoFlush
    | Building(base: nat, out: nat, made: bool)
    | Built(out: nat, made: bool)
    | FlushLogged(out: nat, made: bool)
    | FlushInstalled

  /** BackgroundCompaction; flushes may happen while it is Running. */
  datatype Compaction =
    | NoCompaction
    | Running(input: nat, inputs: set<nat>, outputs: set<nat>, written: set<nat>)
    | Logged(input: nat, inputs: set<nat>, outputs: set<nat>)
    | Ending(input: nat, outputs: set<nat>)
    | Ended

  /**
   `manifest` holds the tables of the version that reopening would rebuild and `manifestLog` the log it would read from
   on; `logNumber` follows when the edit is installed. `logFile` is the log being written. `readers` holds a version for
   each reader.
   */
  datatype State = State(versions: Versions, current: nat, nextVersion: nat, nextFile: nat, pending: set<nat>,
                         disk: set<FileName>, logNumber: nat, prevLogNumber: nat, manifestNumber: nat, bgError: bool,
                         manifest: set<nat>, manifestLog: nat, logFile: nat, readers: multiset<nat>, flush: Flush,
                         compaction: Compaction)

  datatype Step =
    | ReaderStarts
    | ReaderEnds(v: nat)
    | OtherFile(name: FileName)
    | SwitchesLog
    | FlushStarts
    | FlushWrites
    | FlushEndsBuild
    | FlushLogs
    | FlushAppends
    | FlushFails(durable: bool)
    | FlushDeletes
    | Moves
    | CompactionStarts(inputs: set<nat>)
    | OutputOpens
    | OutputWritten(n: nat)
    | CompactionLogs
    | CompactionAppends
    | CompactionFails(durable: bool)
    | CompactionEnds
    | CompactionDeletes

  function Made(f: Flush): set<nat>
    requires f.Built? || f.FlushLogged?
  {
    if f.made then {f.out} else {}
  }

  /**
   Whether the thread of the step is at this point. Foreground threads write logs; readers come and go at any time.
   */
  predicate Enabled(s: State, step: Step) {
    match step
    case ReaderStarts => true
    case ReaderEnds(v) => v in s.readers
    case OtherFile(name) => !name.TableFile?
    case SwitchesLog => s.flush == NoFlush
    case FlushStarts => s.flush == NoFlush && (s.compaction == NoCompaction || s.compaction.Running?)
    case FlushWrites => s.flush.Building?
    case FlushEndsBuild => s.flush.Building?
    case FlushLogs => s.flush.Built?
    case FlushAppends => s.flush.FlushLogged?
    case FlushFails(_) => s.flush.Built?
    case FlushDeletes => s.flush == FlushInstalled
    case Moves => s.flush == NoFlush && s.compaction == NoCompaction
    case CompactionStarts(inputs) =>
      s.flush == NoFlush && s.compaction == NoCompaction && s.current in s.versions &&
          inputs <= s.versions[s.current].files
    case OutputOpens => s.flush == NoFlush && s.compaction.Running?
    case OutputWritten(n) => s.flush == NoFlush && s.compaction.Running? && n in s.compaction.outputs
    case CompactionLogs => s.flush == NoFlush && s.compaction.Running? && s.compaction.written == s.compaction.outputs
    case CompactionAppends => s.compaction.Logged?
    case CompactionFails(durable) =>
      s.flush == NoFlush && s.compaction.Running? && (durable ==> s.compaction.written == s.compaction.outputs)
    case CompactionEnds => s.compaction.Ending?
    case CompactionDeletes => s.compaction == Ended
  }

  function WithOutput(c: Compaction, n: nat): Compaction
    requires c.Running?
  {
    Running(c.input, c.inputs, c.outputs + {n}, c.written)
  }

  function WithWritten(c: Compaction, n: nat): Compaction
    requires c.Running?
  {
    Running(c.input, c.inputs, c.outputs, c.written + {n})
  }

  function CurrentFiles(s: State): set<nat> {
    if s.current in s.versions then s.versions[s.current].files else {}
  }

  function Installed(s: State, files: set<nat>): State {
    s.(versions := Append(s.versions, s.current, s.nextVersion, files), current := s.nextVersion,
       nextVersion := s.nextVersion + 1)
  }

  /**
   DeleteObsoleteFiles: nothing after a background error, for then the manifest may differ from the current version.
   */
  ghost function Deleted(s: State): set<FileName> {
    if s.bgError then s.disk
    else Kept(s.disk, s.pending + Live(s.versions), s.logNumber, s.prevLogNumber, s.manifestNumber)
  }

  ghost function Apply(s: State, step: Step): State
    requires Enabled(s, step)
  {
    match step
    case ReaderStarts => s.(versions := Ref(s.versions, s.current), readers := s.readers + multiset{s.current})
    case ReaderEnds(v) => s.(versions := Unref(s.versions, v), readers := s.readers - multiset{v})
    case OtherFile(name) => s.(disk := s.disk + {name}, nextFile := s.nextFile + 1)
    case SwitchesLog => s.(disk := s.disk + {LogFile(s.nextFile)}, logFile := s.nextFile, nextFile := s.nextFile + 1)
    case FlushStarts =>
      s.(versions := Ref(s.versions, s.current), pending := s.pending + {s.nextFile}, nextFile := s.nextFile + 1,
         flush := Building(s.current, s.nextFile, false))
    case FlushWrites => s.(disk := s.disk + {TableFile(s.flush.out)},
        flush := Building(s.flush.base, s.flush.out, true))
    case FlushEndsBuild =>
      s.(versions := Unref(s.versions, s.flush.base), pending := s.pending - {s.flush.out},
         flush := Built(s.flush.out, s.flush.made))
    case FlushLogs =>
      s.(manifest := s.manifest + Made(s.flush), manifestLog := s.logFile,
         flush := FlushLogged(s.flush.out, s.flush.made))
    case FlushAppends =>
      Installed(s, CurrentFiles(s) + Made(s.flush))
        .(flush := FlushInstalled, logNumber := s.logFile, prevLogNumber := 0)
    case FlushFails(durable) =>
      s.(manifest := if durable then s.manifest + Made(s.flush) else s.manifest,
         manifestLog := if durable then s.logFile else s.manifestLog, bgError := true, flush := NoFlush)
    case FlushDeletes => s.(disk := Deleted(s), flush := NoFlush)
    case Moves => Installed(s, CurrentFiles(s))
    case CompactionStarts(inputs) =>
      s.(versions := Ref(s.versions, s.current), compaction := Running(s.current, inputs, {}, {}))
    case OutputOpens =>
      s.(pending := s.pending + {s.nextFile}, nextFile := s.nextFile + 1,
         compaction := WithOutput(s.compaction, s.nextFile))
    case OutputWritten(n) =>
      s.(disk := s.disk + {TableFile(n)}, compaction := WithWritten(s.compaction, n))
    case CompactionLogs =>
      var c := s.compaction;
      s.(manifest := s.manifest - c.inputs + c.outputs, compaction := Logged(c.input, c.inputs, c.outputs))
    case CompactionAppends =>
      var c := s.compaction;
      Installed(s, CurrentFiles(s) - c.inputs + c.outputs).(compaction := Ending(c.input, c.outputs))
    case CompactionFails(durable) =>
      var c := s.compaction;
      s.(manifest := if durable then s.manifest - c.inputs + c.outputs else s.manifest, bgError := true,
         compaction := Ending(c.input, c.outputs))
    case CompactionEnds =>
      s.(versions := Unref(s.versions, s.compaction.input), pending := s.pending - s.compaction.outputs,
         compaction := Ended)
    case CompactionDeletes => s.(disk := Deleted(s), compaction := NoCompaction)
  }

  // ----- the invariant -----

  function One(b: bool): nat {
    if b then 1 else 0
  }

  predicate HoldsInput(c: Compaction, v: nat) {
    (c.Running? && c.input == v) || (c.Logged? && c.input == v) || (c.Ending? && c.input == v)
  }

  /** Who has a reference to `v`. */
  function Holders(s: State, v: nat): nat {
    s.readers[v] + One(v == s.current) + One(s.flush.Building? && s.flush.base == v) + One(HoldsInput(s.compaction, v))
  }

  ghost predicate RefsAt(s: State, v: nat) {
    if v in s.versions then s.versions[v].refs == Holders(s, v) > 0 && v < s.nextVersion else Holders(s, v) == 0
  }

  /** Reference counts are exact, so a version is in the list as long as somebody uses it. */
  ghost predicate RefsOk(s: State) {
    forall v: nat :: RefsAt(s, v)
  }

  ghost predicate OnDisk(s: State, files: set<nat>) {
    forall n :: n in files ==> TableFile(n) in s.disk
  }

  /** What the compaction in progress relies on. */
  ghost predicate CompactionOk(s: State) {
    match s.compaction
    case NoCompaction => true
    case Running(input, inputs, outputs, written) =>
      && input in s.versions && inputs <= s.versions[input].files
      && outputs <= s.pending && written <= outputs && OnDisk(s, written)
    case Logged(_, _, outputs) => outputs <= s.pending && OnDisk(s, outputs)
    case Ending(_, _) => true
    case Ended => true
  }

  ghost predicate FlushOk(s: State) {
    match s.flush
    case NoFlush => true
    case Building(_, out, made) => out in s.pending && (made ==> TableFile(out) in s.disk) && NotAnOutput(s, out)
    case Built(out, made) => (made ==> TableFile(out) in s.disk)
    case FlushLogged(out, made) => (made ==> TableFile(out) in s.disk)
    case FlushInstalled => true
  }

  predicate NotAnOutput(s: State, n: nat) {
    s.compaction.Running? ==> n !in s.compaction.outputs
  }

  /** What the manifest says, unless an error left that open. */
  ghost predicate ManifestOk(s: State) {
    && OnDisk(s, s.manifest)
    && (!s.bgError ==>
          s.manifest == if s.flush.FlushLogged? then CurrentFiles(s) + Made(s.flush)
                        else if s.compaction.Logged? then CurrentFiles(s) - s.compaction.inputs + s.compaction.outputs
                        else CurrentFiles(s))
  }

  ghost predicate Ok(s: State) {
    && RefsOk(s)
    && (forall v :: v in s.versions ==> OnDisk(s, s.versions[v].files))
    && (forall n :: n in s.pending ==> n < s.nextFile)
    && (s.flush != NoFlush ==> s.compaction == NoCompaction || s.compaction.Running?)
    && CompactionOk(s) && FlushOk(s) && ManifestOk(s)
  }

  predicate TakesRef(step: Step) {
    step.ReaderStarts? || step.FlushStarts? || step.CompactionStarts?
  }

  predicate DropsRef(step: Step) {
    step.ReaderEnds? || step.FlushEndsBuild? || step.CompactionEnds?
  }

  lemma RefsTaken(s: State, step: Step, v: nat)
    requires RefsAt(s, v) && RefsAt(s, s.current) && Enabled(s, step) && TakesRef(step)
    requires s.flush != NoFlush ==> s.compaction == NoCompaction || s.compaction.Running?
    ensures RefsAt(Apply(s, step), v)
  {
  }

  lemma RefsDropped(s: State, step: Step, v: nat)
    requires RefsAt(s, v) && Enabled(s, step) && DropsRef(step)
    requires s.flush != NoFlush ==> s.compaction == NoCompaction || s.compaction.Running?
    ensures RefsAt(Apply(s, step), v)
  {
  }

  lemma RefsMoved(s: State, step: Step, v: nat)
    requires RefsAt(s, v) && RefsAt(s, s.current) && RefsAt(s, s.nextVersion)
    requires Enabled(s, step) && !TakesRef(step) && !DropsRef(step)
    requires s.flush != NoFlush ==> s.compaction == NoCompaction || s.compaction.Running?
    ensures RefsAt(Apply(s, step), v)
  {
  }

  lemma StepKeepsRefs(s: State, step: Step)
    requires RefsOk(s) && Enabled(s, step)
    requires s.flush != NoFlush ==> s.compaction == NoCompaction || s.compaction.Running?
    ensures RefsOk(Apply(s, step))
  {
    hide RefsAt, Apply, Enabled;
    forall v: nat ensures RefsAt(Apply(s, step), v) {
      assert RefsAt(s, v) && RefsAt(s, s.current) && RefsAt(s, s.nextVersion);
      if TakesRef(step) {
        RefsTaken(s, step, v);
      } else if DropsRef(step) {
        RefsDropped(s, step, v);
      } else {
        RefsMoved(s, step, v);
      }
    }
  }

  /** What DeleteObsoleteFiles leaves. */
  lemma DeletedKeeps(s: State, n: nat)
    requires TableFile(n) in s.disk && (s.bgError || n in s.pending || n in Live(s.versions))
    ensures TableFile(n) in Deleted(s)
  {
  }

  lemma StepKeepsOk(s: State, step: Step)
    requires Ok(s) && Enabled(s, step)
    ensures Ok(Apply(s, step))
  {
    hide RefsOk;
    StepKeepsRefs(s, step);
    VersionsStayOnDisk(s, step);
    FlushStaysOk(s, step);
    CompactionStaysOk(s, step);
    ManifestStaysOk(s, step);
  }

  lemma VersionsStayOnDisk(s: State, step: Step)
    requires Ok(s) && Enabled(s, step)
    ensures var t := Apply(s, step); forall v :: v in t.versions ==> OnDisk(t, t.versions[v].files)
  {
    hide RefsOk, CompactionOk;
    OutputsWritten(s);
    forall v | v in Apply(s, step).versions ensures OnDisk(Apply(s, step), Apply(s, step).versions[v].files) {
    }
  }

  lemma OutputsWritten(s: State)
    requires CompactionOk(s)
    ensures s.compaction.Logged? ==> OnDisk(s, s.compaction.outputs)
  {
  }

  lemma FlushStaysOk(s: State, step: Step)
    requires Ok(s) && Enabled(s, step)
    ensures FlushOk(Apply(s, step))
  {
  }

  lemma CompactionStaysOk(s: State, step: Step)
    requires Ok(s) && Enabled(s, step)
    ensures CompactionOk(Apply(s, step))
  {
    assert RefsAt(s, s.current) && RefsAt(s, s.nextVersion);
    if s.compaction.Running? {
      assert RefsAt(s, s.compaction.input);
    }
  }

  lemma ManifestStaysOk(s: State, step: Step)
    requires Ok(s) && Enabled(s, step)
    ensures ManifestOk(Apply(s, step))
  {
    assert RefsAt(s, s.current);
  }

  // ----- runs -----

  /** A store that was just opened: one version, nothing pending. */
  ghost predicate Initial(s: State) {
    && s.current in s.versions && s.versions == map[s.current := Listed(1, s.manifest)] && s.current < s.nextVersion
    && s.pending == {} && s.readers == multiset{} && s.flush == NoFlush && s.compaction == NoCompaction
    && !s.bgError && OnDisk(s, s.manifest)
  }

  ghost predicate Run(states: seq<State>, steps: seq<Step>) {
    |states| == |steps| + 1 && forall i :: 0 <= i < |steps| ==> StepTo(states[i], steps[i], states[i + 1])
  }

  ghost predicate StepTo(s: State, step: Step, t: State) {
    Enabled(s, step) && t == Apply(s, step)
  }

  lemma {:induction false} RunKeepsOk(states: seq<State>, steps: seq<Step>)
    requires Run(states, steps) && Initial(states[0])
    ensures Ok(states[|steps|])
    decreases |steps|
  {
    if steps == [] {
      var s := states[0];
      assert forall v: nat :: RefsAt(s, v);
    } else {
      var last := |steps| - 1;
      assert StepTo(states[last], steps[last], states[last + 1]);
      RunKeepsOk(states[..|states| - 1], steps[..last]);
      StepKeepsOk(states[last], steps[last]);
    }
  }

  /**
   After any run, nobody misses a file: readers and the compaction have every table of their version, finished outputs
   are there to be installed, and reopening finds every table that the manifest names.
   */
  lemma NothingNeededIsDeleted(states: seq<State>, steps: seq<Step>)
    requires Run(states, steps) && Initial(states[0])
    ensures var s := states[|steps|];
      && (forall v :: v in s.readers ==> v in s.versions && OnDisk(s, s.versions[v].files))
      && (s.compaction.Running? ==> OnDisk(s, s.compaction.inputs) && OnDisk(s, s.compaction.written))
      && (s.compaction.Logged? ==> OnDisk(s, s.compaction.outputs))
      && ((s.flush.Building? || s.flush.Built? || s.flush.FlushLogged?) && s.flush.made ==>
          TableFile(s.flush.out) in s.disk)
      && s.current in s.versions && OnDisk(s, CurrentFiles(s)) && OnDisk(s, s.manifest)
  {
    RunKeepsOk(states, steps);
    var s := states[|steps|];
    forall v | v in s.readers ensures v in s.versions {
      assert RefsAt(s, v);
    }
    assert RefsAt(s, s.current);
  }

  predicate SameFiles(vs: Versions, vs': Versions, v: nat) {
    v in vs && v in vs' ==> vs'[v].files == vs[v].files
  }

  lemma RefKeepsFiles(vs: Versions, w: nat, v: nat)
    ensures SameFiles(vs, Ref(vs, w), v) && SameFiles(vs, Unref(vs, w), v)
  {
  }

  lemma AppendKeepsFiles(vs: Versions, current: nat, id: nat, files: set<nat>, v: nat)
    requires v != id
    ensures SameFiles(vs, Append(vs, current, id, files), v)
  {
  }

  lemma KeepsFiles(s: State, step: Step, v: nat)
    requires Enabled(s, step) && v != s.nextVersion
    ensures SameFiles(s.versions, Apply(s, step).versions, v)
  {
    hide Deleted, Ref, Unref, Append, SameFiles;
    assert SameFiles(s.versions, s.versions, v) by {
      NothingChanges(s.versions, v);
    }
    match step
    case ReaderStarts => RefKeepsFiles(s.versions, s.current, v);
    case FlushStarts => RefKeepsFiles(s.versions, s.current, v);
    case CompactionStarts(_) => RefKeepsFiles(s.versions, s.current, v);
    case ReaderEnds(r) => RefKeepsFiles(s.versions, r, v);
    case FlushEndsBuild => RefKeepsFiles(s.versions, s.flush.base, v);
    case CompactionEnds => RefKeepsFiles(s.versions, s.compaction.input, v);
    case FlushAppends =>
      AppendKeepsFiles(s.versions, s.current, s.nextVersion, CurrentFiles(s) + Made(s.flush), v);
    case Moves => AppendKeepsFiles(s.versions, s.current, s.nextVersion, CurrentFiles(s), v);
    case CompactionAppends =>
      var c := s.compaction;
      AppendKeepsFiles(s.versions, s.current, s.nextVersion, CurrentFiles(s) - c.inputs + c.outputs, v);
    case _ =>
  }

  lemma NothingChanges(vs: Versions, v: nat)
    ensures SameFiles(vs, vs, v)
  {
  }

  // ----- files that are not tables -----

  /** Logs are read from the oldest the version set knows on; the manifest may already name a newer one. */
  predicate LogsOk(s: State) {
    s.logNumber <= s.manifestLog <= s.logFile < s.nextFile && (s.flush.FlushLogged? ==> s.manifestLog == s.logFile)
  }

  lemma StepKeepsLogs(s: State, step: Step)
    requires LogsOk(s) && Enabled(s, step)
    ensures LogsOk(Apply(s, step)) && s.logNumber <= Apply(s, step).logNumber
    ensures Apply(s, step).manifestNumber == s.manifestNumber
  {
    hide Deleted, Ref, Unref, Append;
  }

  /** No step removes CURRENT, LOCK, the info log, a log from the log number on, or the manifest or a newer one. */
  lemma StepKeepsFiles(s: State, step: Step)
    requires LogsOk(s) && Enabled(s, step)
    ensures var t := Apply(s, step);
      && (forall f :: f in s.disk && (f == CurrentFile || f == LockFile || f == InfoLogFile) ==> f in t.disk)
      && (forall n: nat :: LogFile(n) in s.disk && n >= t.logNumber ==> LogFile(n) in t.disk)
      && (forall n: nat :: DescriptorFile(n) in s.disk && n >= s.manifestNumber ==> DescriptorFile(n) in t.disk)
    ensures !step.FlushAppends? && LogFile(s.prevLogNumber) in s.disk ==>
              LogFile(s.prevLogNumber) in Apply(s, step).disk
    ensures LogFile(s.logFile) in s.disk ==> LogFile(Apply(s, step).logFile) in Apply(s, step).disk
  {
    hide Ref, Unref, Append, Live;
  }

  /** What opening reads first: CURRENT and the manifest it names, the lock, and the log being written. */
  predicate HoldsEssentials(s: State) {
    && CurrentFile in s.disk && LockFile in s.disk && DescriptorFile(s.manifestNumber) in s.disk
    && LogFile(s.logFile) in s.disk && LogFile(s.manifestLog) in s.disk
  }

  lemma StepKeepsEssentials(s: State, step: Step)
    requires LogsOk(s) && Enabled(s, step) && HoldsEssentials(s)
    ensures HoldsEssentials(Apply(s, step))
  {
    hide Deleted, Ref, Unref, Append;
    StepKeepsFiles(s, step);
    StepKeepsLogs(s, step);
  }

  /** Over every run, the files without which the store cannot be reopened stay on disk. */
  lemma {:induction false} EssentialsStay(states: seq<State>, steps: seq<Step>, i: nat)
    requires Run(states, steps) && LogsOk(states[0]) && HoldsEssentials(states[0]) && i < |states|
    ensures LogsOk(states[i]) && HoldsEssentials(states[i])
  {
    hide Apply, Enabled, LogsOk, HoldsEssentials;
    if i > 0 {
      EssentialsStay(states, steps, i - 1);
      assert StepTo(states[i - 1], steps[i - 1], states[i - 1 + 1]);
      StepKeepsLogs(states[i - 1], steps[i - 1]);
      StepKeepsEssentials(states[i - 1], steps[i - 1]);
    }
  }

  /** Over every run, a log that reopening would read stays on disk. */
  lemma {:induction false} NeededLogsStay(states: seq<State>, steps: seq<Step>, i: nat, j: nat, n: nat)
    requires Run(states, steps) && LogsOk(states[0]) && i <= j < |states|
    requires LogFile(n) in states[i].disk && n >= states[j].manifestLog
    ensures LogFile(n) in states[j].disk
    decreases j
  {
    hide Apply, Enabled;
    RunKeepsLogs(states, steps, j);
    if i < j {
      RunKeepsLogs(states, steps, j - 1);
      assert StepTo(states[j - 1], steps[j - 1], states[j - 1 + 1]);
      StepRaisesLog(states[j - 1], steps[j - 1]);
      NeededLogsStay(states, steps, i, j - 1, n);
      StepKeepsFiles(states[j - 1], steps[j - 1]);
    }
  }

  lemma StepRaisesLog(s: State, step: Step)
    requires LogsOk(s) && Enabled(s, step)
    ensures s.manifestLog <= Apply(s, step).manifestLog
  {
    hide Deleted, Ref, Unref, Append;
  }

  lemma {:induction false} RunKeepsLogs(states: seq<State>, steps: seq<Step>, i: nat)
    requires Run(states, steps) && LogsOk(states[0]) && i < |states|
    ensures LogsOk(states[i])
  {
    hide Apply, Enabled, LogsOk;
    if i > 0 {
      RunKeepsLogs(states, steps, i - 1);
      assert StepTo(states[i - 1], steps[i - 1], states[i - 1 + 1]);
      StepKeepsLogs(states[i - 1], steps[i - 1]);
    }
  }

  /** Without a background error a collection leaves no older log, no older manifest and no abandoned temporary file. */
  lemma NoGarbageStays(s: State)
    requires !s.bgError
    ensures forall n: nat :: LogFile(n) in Deleted(s) ==> n >= s.logNumber || n == s.prevLogNumber
    ensures forall n: nat :: DescriptorFile(n) in Deleted(s) ==> n >= s.manifestNumber
    ensures forall n: nat :: TempFile(n) in Deleted(s) || TableFile(n) in Deleted(s) ==>
              n in s.pending || exists v :: v in s.versions && n in s.versions[v].files
    ensures OnlyNeeded(s.disk, Deleted(s), s.versions, s.pending, s.logNumber, s.prevLogNumber, s.manifestNumber)
  {
    KeptIsNeeded(s.disk, s.versions, s.pending, s.logNumber, s.prevLogNumber, s.manifestNumber);
  }

  /** A version never changes while it is in the list. */
  lemma VersionsAreFixed(s: State, step: Step, v: nat)
    requires Ok(s) && Enabled(s, step) && v in s.versions && v in Apply(s, step).versions
    ensures Apply(s, step).versions[v].files == s.versions[v].files
  {
    hide CompactionOk, FlushOk, ManifestOk, OnDisk, Apply, Enabled;
    assert RefsAt(s, v);
    KeepsFiles(s, step, v);
  }

  /** What is collected is all that can be: with no reader and no compaction, exactly the current tables stay. */
  lemma OnlyCurrentTablesStay(s: State)
    requires Ok(s) && !s.bgError && s.readers == multiset{}
    requires (s.flush == FlushInstalled && s.compaction == NoCompaction) ||
             (s.compaction == Ended && s.flush == NoFlush)
    requires s.pending == {}
    ensures forall n :: TableFile(n) in Deleted(s) <==> n in CurrentFiles(s)
  {
    forall v | v in s.versions ensures v == s.current {
      assert RefsAt(s, v);
    }
    assert RefsAt(s, s.current);
    assert Live(s.versions) == CurrentFiles(s);
  }

  /** Every freshly opened store can come to the moment at which the table of a flush is neither pending nor listed. */
  lemma WindowIsReached(s: State) returns (states: seq<State>, steps: seq<Step>)
    requires Initial(s) && s.nextFile !in s.manifest
    ensures Run(states, steps) && states[0] == s
    ensures var t := states[|steps|];
      && Ok(t) && !t.bgError && t.flush.Built? && t.flush.made
      && t.flush.out !in t.pending && t.flush.out !in Live(t.versions)
  {
    var s1 := Apply(s, FlushStarts);
    var s2 := Apply(s1, FlushWrites);
    var s3 := Apply(s2, FlushEndsBuild);
    states, steps := [s, s1, s2, s3], [FlushStarts, FlushWrites, FlushEndsBuild];
    assert StepTo(s, FlushStarts, s1) && StepTo(s1, FlushWrites, s2) && StepTo(s2, FlushEndsBuild, s3);
    RunKeepsOk(states, steps);
  }

  /**
   The table of a flush stops being pending before the manifest names it. That is safe only because the thread that
   flushes is the one that deletes: deleting at that moment would lose the table and the version installed next would
   lack it.
   */
  lemma DeletingDuringAFlushLosesTheTable(s: State)
    requires Ok(s) && !s.bgError && s.flush.Built? && s.flush.made
    requires s.flush.out !in s.pending && s.flush.out !in Live(s.versions)
    ensures var t := s.(disk := Deleted(s));
      var u := Apply(Apply(t, FlushLogs), FlushAppends);
      s.flush.out in CurrentFiles(u) && TableFile(s.flush.out) !in u.disk && !Ok(u)
  {
    var t := s.(disk := Deleted(s));
    var u := Apply(Apply(t, FlushLogs), FlushAppends);
    assert s.flush.out in u.versions[u.current].files;
    assert TableFile(s.flush.out) !in Deleted(s);
    assert !OnDisk(u, u.versions[u.current].files);
  }

  // ----- the operations -----

  /** `n` is the number of a table of some version in the list, or of an output being written. */
  ghost predicate InUse(versions: Versions, pending: set<nat>, n: nat) {
    n in pending || exists v :: v in versions && n in versions[v].files
  }

  /** What a collection leaves, file by file. */
  ghost predicate OnlyNeeded(disk: set<FileName>, disk': set<FileName>, versions: Versions, pending: set<nat>,
                             logNumber: nat, prevLogNumber: nat, manifestNumber: nat)
  {
    && (forall f :: f == CurrentFile || f == LockFile || f == InfoLogFile ==> (f in disk' <==> f in disk))
    && (forall n: nat :: LogFile(n) in disk' <==> LogFile(n) in disk && (n >= logNumber || n == prevLogNumber))
    && (forall n: nat :: DescriptorFile(n) in disk' <==> DescriptorFile(n) in disk && n >= manifestNumber)
    && (forall n: nat :: TableFile(n) in disk' <==> TableFile(n) in disk && InUse(versions, pending, n))
    && (forall n: nat :: TempFile(n) in disk' <==> TempFile(n) in disk && InUse(versions, pending, n))
  }

  lemma KeptIsNeeded(disk: set<FileName>, versions: Versions, pending: set<nat>, logNumber: nat, prevLogNumber: nat,
                     manifestNumber: nat)
    ensures OnlyNeeded(disk, Kept(disk, pending + Live(versions), logNumber, prevLogNumber, manifestNumber), versions,
                       pending, logNumber, prevLogNumber, manifestNumber)
  {
    forall n: nat
      ensures n in pending + Live(versions) <==> InUse(versions, pending, n)
    {
    }
  }

  /** The parts of VersionSet and DBImpl that file deletion reads and writes. */
  class FileKeeper {
    var versions: Versions
    var current: nat
    var nextVersion: nat
    var pending: set<nat>
    var disk: set<FileName>
    var logNumber: nat
    var prevLogNumber: nat
    var manifestNumber: nat
    var bgError: bool

    /** Version::Ref. */
    method RefVersion(v: nat)
      requires v in versions
      modifies `versions
      ensures versions == Ref(old(versions), v)
    {
      versions := versions[v := Listed(versions[v].refs + 1, versions[v].files)];
    }

    /** Version::Unref and ~Version. */
    method UnrefVersion(v: nat)
      requires v in versions && versions[v].refs >= 1
      modifies `versions
      ensures versions == Unref(old(versions), v)
    {
      var refs := versions[v].refs - 1;
      if refs == 0 {
        versions := versions - {v};
      } else {
        versions := versions[v := Listed(refs, versions[v].files)];
      }
    }

    method AppendVersion(files: set<nat>)
      requires current in versions && versions[current].refs >= 1 && nextVersion !in versions
      modifies `versions, `current, `nextVersion
      ensures versions == Append(old(versions), old(current), old(nextVersion), files)
      ensures current == old(nextVersion) && nextVersion == old(nextVersion) + 1
    {
      UnrefVersion(current);
      current := nextVersion;
      nextVersion := nextVersion + 1;
      versions := versions[current := Listed(0, files)];
      RefVersion(current);
    }

    method AddLiveFiles(start: set<nat>) returns (live: set<nat>)
      ensures live == start + Live(versions)
    {
      live := start;
      var left := versions.Keys;
      while left != {}
        invariant left <= versions.Keys
        invariant forall n :: n in live <==>
                  n in start || exists v :: v in versions && v !in left && n in versions[v].files
        decreases |left|
      {
        var v :| v in left;
        live := live + versions[v].files;
        left := left - {v};
      }
    }

    method DeleteObsoleteFiles()
      modifies `disk
      ensures disk <= old(disk) && (bgError ==> disk == old(disk))
      ensures !bgError ==> OnlyNeeded(old(disk), disk, versions, pending, logNumber, prevLogNumber, manifestNumber)
      ensures !bgError ==>
        disk == Kept(old(disk), pending + Live(versions), logNumber, prevLogNumber, manifestNumber)
    {
      if bgError {
        return;
      }
      KeptIsNeeded(disk, versions, pending, logNumber, prevLogNumber, manifestNumber);
      var live := AddLiveFiles(pending);
      var filenames := disk;
      while filenames != {}
        invariant filenames <= disk <= old(disk)
        invariant forall name :: name in old(disk) && name !in filenames ==>
          (name in disk <==> Keep(name, live, logNumber, prevLogNumber, manifestNumber))
        decreases |filenames|
      {
        var name :| name in filenames;
        filenames := filenames - {name};
        if !Keep(name, live, logNumber, prevLogNumber, manifestNumber) {
          disk := disk - {name};
        }
      }
    }
  }
}
