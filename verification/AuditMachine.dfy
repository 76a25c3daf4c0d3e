/**
  Any number of Log objects, in one process or several, over one audit file.

  Each object holds its own mutex for a whole call, so it is in one call at a time; calls of
  different objects interleave at every point where they touch the file. Append works under the
  flock, Checkpoint does not.
 */
module AuditMachine {
  import opened Option
  import opened AuditChain
  import opened AuditLog

  datatype Phase =
    | Idle
    | Locked(req: Request)                           // Append holds the flock
    | AppendMissed(req: Request, state: FileState)   // its stat missed the cache; it will scan
    | Found(req: Request, tail: Tail)                // it has a tail to extend
    | Opened(event: Event, bytes: nat)               // the file is open for appending
    | Written(event: Event)                          // the line is written; the cache is not updated
    | CheckMissed(state: FileState, from: nat)       // Checkpoint's stat missed; `from` lines existed then

  datatype Proc = Proc(log: LogState, phase: Phase)

  // What a Checkpoint call returned; `from` is the number of lines at its stat.
  datatype Checkpoint = Checkpoint(sequence: int, hash: string, from: nat)

  datatype Sys = Sys(
    present: bool, lines: seq<Line>, lock: Option<nat>, procs: seq<Proc>, checkpoints: seq<Checkpoint>)

  datatype Step =
    | Join
    | SetKey(i: nat, key: Key)
    | Lock(i: nat, req: Request)
    | AppendStat(i: nat, rest: int, cacheable: bool)
    | AppendScan(i: nat)
    | Open(i: nat)
    | Write(i: nat)
    | Recache(i: nat, stats: bool, rest: int, cacheable: bool)
    | Fail(i: nat)
    | CheckStat(i: nat, rest: int, cacheable: bool)
    | CheckScan(i: nat)

  predicate Holds(phase: Phase)
  {
    phase.Locked? || phase.AppendMissed? || phase.Found? || phase.Opened? || phase.Written?
  }

  function StatOf(s: Sys, rest: int, cacheable: bool): Option<FileState>
  {
    if s.present then Some(FileState(Bytes(s.lines), rest, cacheable)) else None
  }

  /** The two preconditions on an event: its details survive JSON, and its line fits the scanner. */
  predicate Admissible(w: World, req: Request)
  {
    w.recode(req.details) == Some(req.details) && req.bytes + 1 <= MAX_LINE_BYTES
  }

  /** Steps a run may take: every log is unkeyed or has the shared key. */
  predicate Enabled(w: World, key: Key, s: Sys, step: Step)
  {
    match step
    case Join => true
    case SetKey(i, k) => i < |s.procs| && s.procs[i].phase.Idle? && (k == [] || k == key)
    case Lock(i, req) => i < |s.procs| && s.procs[i].phase.Idle? && s.lock.None? && Admissible(w, req)
    case AppendStat(i, _, _) => i < |s.procs| && s.procs[i].phase.Locked?
    case AppendScan(i) => i < |s.procs| && s.procs[i].phase.AppendMissed?
    case Open(i) => i < |s.procs| && s.procs[i].phase.Found?
    case Write(i) => i < |s.procs| && s.procs[i].phase.Opened?
    case Recache(i, _, _, _) => i < |s.procs| && s.procs[i].phase.Written?
    case Fail(i) => i < |s.procs| && !s.procs[i].phase.Idle? && !s.procs[i].phase.Written?
    case CheckStat(i, _, _) => i < |s.procs| && s.procs[i].phase.Idle?
    case CheckScan(i) => i < |s.procs| && s.procs[i].phase.CheckMissed?
  }

  function Set(s: Sys, i: nat, log: LogState, phase: Phase): Sys
    requires i < |s.procs|
  {
    s.(procs := s.procs[i := Proc(log, phase)])
  }

  function Unlocked(s: Sys, i: nat, log: LogState): Sys
    requires i < |s.procs|
  {
    Set(s, i, log, Idle).(lock := None)
  }

  function Reported(s: Sys, tail: Tail, from: nat): Sys
  {
    s.(checkpoints := s.checkpoints +
       [if tail.last.None? then Checkpoint(0, "", from) else Checkpoint(tail.count, tail.last.value.hash, from)])
  }

  function Apply(w: World, key: Key, s: Sys, step: Step): Sys
    requires Enabled(w, key, s, step)
  {
    match step
    case Join => s.(procs := s.procs + [Proc(LogState([], Empty), Idle)])
    case SetKey(i, k) => Set(s, i, s.procs[i].log.(key := k), Idle)
    case Lock(i, req) => Set(s, i, s.procs[i].log, Locked(req)).(lock := Some(i))
    case AppendStat(i, rest, cacheable) =>
      var stat, log, req := StatOf(s, rest, cacheable), s.procs[i].log, s.procs[i].phase.req;
      Set(s, i, AfterStat(log, stat),
          match StatOutcome(log, stat)
          case Absent => Found(req, Tail(None, 0))
          case Hit(tail) => Found(req, tail)
          case Miss(st) => AppendMissed(req, st))
    case AppendScan(i) =>
      var AppendMissed(req, st) := s.procs[i].phase;
      var log := AfterScan(s.procs[i].log, st, s.lines);
      if Readable(s.lines) then Set(s, i, log, Found(req, TailOf(s.lines))) else Unlocked(s, i, log)
    case Open(i) =>
      var Found(req, tail) := s.procs[i].phase;
      var log := s.procs[i].log;
      Set(s, i, log, Opened(NextEvent(w, log.key, tail.last, tail.count, req), req.bytes)).(present := true)
    case Write(i) =>
      var Opened(event, bytes) := s.procs[i].phase;
      Set(s, i, s.procs[i].log, Written(event)).(lines := s.lines + [WrittenLine(w, event, bytes)])
    case Recache(i, stats, rest, cacheable) =>
      var stat := if stats then StatOf(s, rest, cacheable) else None;
      Unlocked(s, i, AfterAppend(s.procs[i].log, stat, s.procs[i].phase.event))
    case Fail(i) =>
      if s.procs[i].phase.CheckMissed? then Set(s, i, s.procs[i].log, Idle) else Unlocked(s, i, s.procs[i].log)
    case CheckStat(i, rest, cacheable) =>
      var stat, log := StatOf(s, rest, cacheable), s.procs[i].log;
      var from := |s.lines|;
      (match StatOutcome(log, stat)
       case Absent => Reported(Set(s, i, AfterStat(log, stat), Idle), Tail(None, 0), from)
       case Hit(tail) => Reported(Set(s, i, log, Idle), tail, from)
       case Miss(st) => Set(s, i, log, CheckMissed(st, from)))
    case CheckScan(i) =>
      var CheckMissed(st, from) := s.procs[i].phase;
      var scanned := Set(s, i, AfterScan(s.procs[i].log, st, s.lines), Idle);
      if Readable(s.lines) then Reported(scanned, TailOf(s.lines), from) else scanned
  }

  // ----- The invariant

  ghost predicate PhaseOk(w: World, key: Key, s: Sys, phase: Phase)
  {
    match phase
    case Idle => true
    case Locked(req) => Admissible(w, req)
    case AppendMissed(req, st) => Admissible(w, req) && st.size <= Bytes(s.lines)
    case Found(req, tail) => Admissible(w, req) && tail == TailOf(s.lines)
    case Opened(event, bytes) =>
      && s.present
      && WrittenLine(w, event, bytes) == Record(bytes, event)
      && Fits(Record(bytes, event))
      && Links(w, key, |s.lines|, HashBefore(s.lines, |s.lines|), Record(bytes, event))
    case Written(event) =>
      && s.lines != []
      && s.lines[|s.lines| - 1].Record? && s.lines[|s.lines| - 1].event == event
    case CheckMissed(st, from) => st.size <= Bytes(s.lines) && from <= |s.lines|
  }

  ghost predicate ProcOk(w: World, key: Key, s: Sys, i: nat)
    requires i < |s.procs|
  {
    && (s.procs[i].log.key == [] || s.procs[i].log.key == key)
    && Coherent(s.procs[i].log, s.lines)
    && PhaseOk(w, key, s, s.procs[i].phase)
    && (Holds(s.procs[i].phase) <==> s.lock == Some(i))
  }

  ghost predicate CheckpointOk(lines: seq<Line>, c: Checkpoint)
  {
    c.from <= c.sequence <= |lines| && c.hash == HashBefore(lines, c.sequence)
  }

  ghost predicate FileOk(w: World, key: Key, s: Sys)
  {
    && (!s.present ==> s.lines == [])
    && AllFit(s.lines)
    && ChainOk(w, key, s.lines)
  }

  ghost predicate Inv(w: World, key: Key, s: Sys)
  {
    && FileOk(w, key, s)
    && (s.lock.Some? ==> s.lock.value < |s.procs|)
    && (forall i :: 0 <= i < |s.procs| ==> ProcOk(w, key, s, i))
    && (forall c :: 0 <= c < |s.checkpoints| ==> CheckpointOk(s.lines, s.checkpoints[c]))
  }

  /** A missing, empty or already valid file, and freshly made logs. */
  ghost predicate Init(w: World, key: Key, s: Sys)
  {
    && FileOk(w, key, s)
    && s.lock == None && s.checkpoints == []
    && forall i :: 0 <= i < |s.procs| ==> s.procs[i] == Proc(LogState([], Empty), Idle)
  }

  lemma ValidFileIsReadable(w: World, key: Key, lines: seq<Line>)
    requires AllFit(lines) && ChainOk(w, key, lines)
    ensures Readable(lines)
    ensures LastEvent(lines).Some? <==> lines != []
    ensures lines != [] ==> HashBefore(lines, |lines|) == LastEvent(lines).value.hash
    ensures forall i :: 0 <= i < |lines| ==> lines[i].event.body.sequence == i + 1
  {
    forall i | 0 <= i < |lines|
      ensures lines[i].Record? && lines[i].event.body.sequence == i + 1
    {
      assert LinksAt(w, key, lines, i);
    }
  }

  /** A stat is a hit only when the cached event is the file's last. */
  lemma StatIsRight(w: World, key: Key, s: Sys, i: nat, rest: int, cacheable: bool)
    requires Inv(w, key, s) && i < |s.procs|
    ensures StatOutcome(s.procs[i].log, StatOf(s, rest, cacheable)).Hit? ==>
      s.lines != [] && StatOutcome(s.procs[i].log, StatOf(s, rest, cacheable)).tail == TailOf(s.lines)
    ensures Coherent(AfterStat(s.procs[i].log, StatOf(s, rest, cacheable)), s.lines)
  {
    assert ProcOk(w, key, s, i);
    var stat := StatOf(s, rest, cacheable);
    if StatOutcome(s.procs[i].log, stat).Hit? {
      HitEqualsScan(s.procs[i].log, stat.value, s.lines);
    }
  }

  /** Steps that leave the file, and everyone else's state, alone. */
  lemma KeepsOthers(w: World, key: Key, s: Sys, t: Sys, i: nat)
    requires Inv(w, key, s)
    requires i < |s.procs| == |t.procs|
    requires t.lines == s.lines && (s.present ==> t.present) && (t.present || s.lines == [])
    requires forall j :: 0 <= j < |s.procs| && j != i ==> t.procs[j] == s.procs[j]
    requires ProcOk(w, key, t, i)
    requires t.lock == s.lock || (s.lock == None && t.lock == Some(i)) || (s.lock == Some(i) && t.lock == None)
    requires t.checkpoints == s.checkpoints
    ensures Inv(w, key, t)
  {
    forall j | 0 <= j < |t.procs|
      ensures ProcOk(w, key, t, j)
    {
      assert ProcOk(w, key, s, j);
    }
  }

  lemma ReportKeepsInv(w: World, key: Key, s: Sys, tail: Tail, from: nat)
    requires Inv(w, key, s) && from <= |s.lines|
    requires tail == TailOf(s.lines)
    ensures Inv(w, key, Reported(s, tail, from))
  {
    var t := Reported(s, tail, from);
    ValidFileIsReadable(w, key, s.lines);
    assert CheckpointOk(t.lines, t.checkpoints[|s.checkpoints|]);
    forall j | 0 <= j < |t.procs|
      ensures ProcOk(w, key, t, j)
    {
      assert ProcOk(w, key, s, j);
    }
  }

  lemma OpenedLinks(w: World, key: Key, mine: Key, lines: seq<Line>, req: Request)
    requires ChainOk(w, key, lines) && AllFit(lines)
    requires mine == [] || mine == key
    requires Admissible(w, req)
    ensures var event := NextEvent(w, mine, LastEvent(lines), |lines|, req);
      && WrittenLine(w, event, req.bytes) == Record(req.bytes, event)
      && Links(w, key, |lines|, HashBefore(lines, |lines|), Record(req.bytes, event))
  {
    var event := NextEvent(w, mine, LastEvent(lines), |lines|, req);
    NextEventLinks(w, key, mine, lines, req);
    ChainExtends(w, key, lines, Record(req.bytes, event));
  }

  /** A write by i leaves j's log coherent, and what j is doing in order: j holds no lock, unless j is i. */
  lemma WriteKeepsProc(w: World, key: Key, s: Sys, i: nat, j: nat)
    requires Inv(w, key, s) && Enabled(w, key, s, Write(i)) && j < |s.procs|
    ensures ProcOk(w, key, Apply(w, key, s, Write(i)), j)
  {
    hide Coherent, Bytes, Links, HashBefore, Admissible, FileOk, CheckpointOk, Fits, WrittenLine, LinksAt;
    var Opened(event, bytes) := s.procs[i].phase;
    var line := WrittenLine(w, event, bytes);
    assert ProcOk(w, key, s, i) && ProcOk(w, key, s, j);
    CoherentGrows(s.procs[j].log, s.lines, [line]);
    GrowsBytes(s.lines, line);
    if j != i {
      assert !Holds(s.procs[j].phase);
    } else {
      assert (s.lines + [line])[|s.lines|] == line == Record(bytes, event);
    }
  }

  lemma GrowsBytes(lines: seq<Line>, line: Line)
    ensures Bytes(lines) <= Bytes(lines + [line])
  {
    BytesGrows(lines + [line], |lines|);
    assert (lines + [line])[..|lines|] == lines;
  }

  lemma WriteKeepsInv(w: World, key: Key, s: Sys, i: nat)
    requires Inv(w, key, s) && Enabled(w, key, s, Write(i))
    ensures Inv(w, key, Apply(w, key, s, Write(i)))
  {
    var t := Apply(w, key, s, Write(i));
    var Opened(event, bytes) := s.procs[i].phase;
    assert FileOk(w, key, t) by {
      assert ProcOk(w, key, s, i);
      ChainExtends(w, key, s.lines, Record(bytes, event));
    }
    forall j | 0 <= j < |t.procs|
      ensures ProcOk(w, key, t, j)
    {
      WriteKeepsProc(w, key, s, i, j);
    }
    forall c | 0 <= c < |t.checkpoints|
      ensures CheckpointOk(t.lines, t.checkpoints[c])
    {
      assert CheckpointOk(s.lines, s.checkpoints[c]);
    }
  }

  lemma AppendStatKeepsInv(w: World, key: Key, s: Sys, i: nat, rest: int, cacheable: bool)
    requires Inv(w, key, s) && Enabled(w, key, s, AppendStat(i, rest, cacheable))
    ensures Inv(w, key, Apply(w, key, s, AppendStat(i, rest, cacheable)))
  {
    assert ProcOk(w, key, s, i);
    StatIsRight(w, key, s, i, rest, cacheable);
    KeepsOthers(w, key, s, Apply(w, key, s, AppendStat(i, rest, cacheable)), i);
  }

  lemma AppendScanKeepsInv(w: World, key: Key, s: Sys, i: nat)
    requires Inv(w, key, s) && Enabled(w, key, s, AppendScan(i))
    ensures Inv(w, key, Apply(w, key, s, AppendScan(i)))
  {
    assert ProcOk(w, key, s, i);
    ScanKeepsCoherence(w, key, s.procs[i].log, s.procs[i].phase.state, s.lines);
    KeepsOthers(w, key, s, Apply(w, key, s, AppendScan(i)), i);
  }

  lemma OpenKeepsInv(w: World, key: Key, s: Sys, i: nat)
    requires Inv(w, key, s) && Enabled(w, key, s, Open(i))
    ensures Inv(w, key, Apply(w, key, s, Open(i)))
  {
    assert ProcOk(w, key, s, i);
    OpenedLinks(w, key, s.procs[i].log.key, s.lines, s.procs[i].phase.req);
    KeepsOthers(w, key, s, Apply(w, key, s, Open(i)), i);
  }

  lemma RecacheKeepsInv(w: World, key: Key, s: Sys, i: nat, stats: bool, rest: int, cacheable: bool)
    requires Inv(w, key, s) && Enabled(w, key, s, Recache(i, stats, rest, cacheable))
    ensures Inv(w, key, Apply(w, key, s, Recache(i, stats, rest, cacheable)))
  {
    assert ProcOk(w, key, s, i);
    ValidFileIsReadable(w, key, s.lines);
    assert s.lines[..|s.lines|] == s.lines;
    KeepsOthers(w, key, s, Apply(w, key, s, Recache(i, stats, rest, cacheable)), i);
  }

  lemma CheckStatKeepsInv(w: World, key: Key, s: Sys, i: nat, rest: int, cacheable: bool)
    requires Inv(w, key, s) && Enabled(w, key, s, CheckStat(i, rest, cacheable))
    ensures Inv(w, key, Apply(w, key, s, CheckStat(i, rest, cacheable)))
  {
    assert ProcOk(w, key, s, i);
    StatIsRight(w, key, s, i, rest, cacheable);
    var stat, log := StatOf(s, rest, cacheable), s.procs[i].log;
    var outcome := StatOutcome(log, stat);
    if outcome.Miss? {
      KeepsOthers(w, key, s, Apply(w, key, s, CheckStat(i, rest, cacheable)), i);
    } else {
      var u := Set(s, i, AfterStat(log, stat), Idle);
      KeepsOthers(w, key, s, u, i);
      ReportKeepsInv(w, key, u, if outcome.Hit? then outcome.tail else Tail(None, 0), |s.lines|);
    }
  }

  lemma CheckScanKeepsInv(w: World, key: Key, s: Sys, i: nat)
    requires Inv(w, key, s) && Enabled(w, key, s, CheckScan(i))
    ensures Inv(w, key, Apply(w, key, s, CheckScan(i)))
  {
    assert ProcOk(w, key, s, i);
    var CheckMissed(st, from) := s.procs[i].phase;
    ScanKeepsCoherence(w, key, s.procs[i].log, st, s.lines);
    var u := Set(s, i, AfterScan(s.procs[i].log, st, s.lines), Idle);
    KeepsOthers(w, key, s, u, i);
    ReportKeepsInv(w, key, u, TailOf(s.lines), from);
  }

  lemma JoinKeepsInv(w: World, key: Key, s: Sys)
    requires Inv(w, key, s)
    ensures Inv(w, key, Apply(w, key, s, Join))
  {
    var t := Apply(w, key, s, Join);
    forall j | 0 <= j < |t.procs|
      ensures ProcOk(w, key, t, j)
    {
      assert j < |s.procs| ==> ProcOk(w, key, s, j);
    }
  }

  /** Steps that touch no file and no cache. */
  lemma QuietStepKeepsInv(w: World, key: Key, s: Sys, step: Step)
    requires Inv(w, key, s) && Enabled(w, key, s, step)
    requires step.SetKey? || step.Lock? || step.Fail?
    ensures Inv(w, key, Apply(w, key, s, step))
  {
    hide Bytes, CheckpointOk, ChainOk, AllFit;
    assert ProcOk(w, key, s, step.i);
    KeepsOthers(w, key, s, Apply(w, key, s, step), step.i);
  }

  lemma StepKeepsInv(w: World, key: Key, s: Sys, step: Step)
    requires Inv(w, key, s) && Enabled(w, key, s, step)
    ensures Inv(w, key, Apply(w, key, s, step))
  {
    hide Inv, Apply;
    match step
    case Join => JoinKeepsInv(w, key, s);
    case SetKey(_, _) => QuietStepKeepsInv(w, key, s, step);
    case Lock(_, _) => QuietStepKeepsInv(w, key, s, step);
    case Fail(_) => QuietStepKeepsInv(w, key, s, step);
    case AppendStat(i, rest, cacheable) => AppendStatKeepsInv(w, key, s, i, rest, cacheable);
    case AppendScan(i) => AppendScanKeepsInv(w, key, s, i);
    case Open(i) => OpenKeepsInv(w, key, s, i);
    case Write(i) => WriteKeepsInv(w, key, s, i);
    case Recache(i, stats, rest, cacheable) => RecacheKeepsInv(w, key, s, i, stats, rest, cacheable);
    case CheckStat(i, rest, cacheable) => CheckStatKeepsInv(w, key, s, i, rest, cacheable);
    case CheckScan(i) => CheckScanKeepsInv(w, key, s, i);
  }

  /** The file and the list of checkpoints only ever grow at the end. */
  lemma StepOnlyGrows(w: World, key: Key, s: Sys, step: Step)
    requires Enabled(w, key, s, step)
    ensures s.lines <= Apply(w, key, s, step).lines
    ensures s.checkpoints <= Apply(w, key, s, step).checkpoints
  {
  }

  // ----- Runs

  ghost predicate IsRun(w: World, key: Key, states: seq<Sys>, steps: seq<Step>)
  {
    && |states| == |steps| + 1
    && Init(w, key, states[0])
    && forall i :: 0 <= i < |steps| ==>
         Enabled(w, key, states[i], steps[i]) && states[i + 1] == Apply(w, key, states[i], steps[i])
  }

  lemma {:induction false} RunKeepsInv(w: World, key: Key, states: seq<Sys>, steps: seq<Step>, n: nat, m: nat)
    requires IsRun(w, key, states, steps)
    requires n <= m <= |steps|
    ensures Inv(w, key, states[m])
    ensures states[n].lines <= states[m].lines
    ensures states[n].checkpoints <= states[m].checkpoints
    decreases m
  {
    if m == 0 {
      forall i | 0 <= i < |states[0].procs|
        ensures ProcOk(w, key, states[0], i)
      {
        assert states[0].procs[i] == Proc(LogState([], Empty), Idle);
      }
    } else {
      RunKeepsInv(w, key, states, steps, if n < m then n else m - 1, m - 1);
      StepKeepsInv(w, key, states[m - 1], steps[m - 1]);
      StepOnlyGrows(w, key, states[m - 1], steps[m - 1]);
    }
  }

  /** In every state of every run the file verifies under the shared key, with sequences 1..n. */
  lemma RunsVerify(w: World, key: Key, states: seq<Sys>, steps: seq<Step>, n: nat, v: Verdict)
    requires IsRun(w, key, states, steps) && n <= |steps|
    requires Exact(w, key, states[n].lines, v)
    ensures v.Scanned? && v.report.ok
    ensures v.report.totalEntries == |states[n].lines|
    ensures forall i :: 0 <= i < |states[n].lines| ==>
      states[n].lines[i].Record? && states[n].lines[i].event.body.sequence == i + 1
  {
    RunKeepsInv(w, key, states, steps, 0, n);
    ValidFileIsReadable(w, key, states[n].lines);
    ExactDecides(w, key, states[n].lines, v);
  }

  /** In every state of every run a fingerprint hit returns what a rescan would. */
  lemma CachesAreCoherent(
    w: World, key: Key, states: seq<Sys>, steps: seq<Step>, n: nat, i: nat, rest: int, cacheable: bool)
    requires IsRun(w, key, states, steps) && n <= |steps| && i < |states[n].procs|
    ensures var s := states[n];
      var found := StatOutcome(s.procs[i].log, StatOf(s, rest, cacheable));
      found.Hit? ==> s.lines != [] && found.tail == TailOf(s.lines)
  {
    RunKeepsInv(w, key, states, steps, 0, n);
    StatIsRight(w, key, states[n], i, rest, cacheable);
  }

  /** A checkpoint, taken without the flock, names a line that was last at some moment of the call,
      and every later file that verifies and carries it repeats the file up to there. */
  lemma CheckpointsBind(w: World, key: Key, states: seq<Sys>, steps: seq<Step>, n: nat, m: nat, c: nat,
                        other: seq<Line>)
    requires Injective(w.digest)
    requires IsRun(w, key, states, steps) && n <= m <= |steps| && c < |states[n].checkpoints|
    ensures var cp := states[n].checkpoints[c];
      && cp.from <= cp.sequence <= |states[n].lines| <= |states[m].lines|
      && cp.hash == HashBefore(states[m].lines, cp.sequence)
      && (ChainOk(w, key, other) && cp.sequence <= |other| && HashBefore(other, cp.sequence) == cp.hash ==>
            forall k :: 0 <= k < cp.sequence ==> SameRecord(states[m].lines[k], other[k]))
  {
    RunKeepsInv(w, key, states, steps, 0, n);
    RunKeepsInv(w, key, states, steps, n, m);
    var cp := states[n].checkpoints[c];
    assert CheckpointOk(states[n].lines, cp);
    assert cp == states[m].checkpoints[c];
    assert CheckpointOk(states[m].lines, cp);
    if ChainOk(w, key, other) && 0 < cp.sequence <= |other| && HashBefore(other, cp.sequence) == cp.hash {
      assert LinksAt(w, key, states[m].lines, cp.sequence - 1) && LinksAt(w, key, other, cp.sequence - 1);
      HashFixesPrefix(w, key, states[m].lines, other, cp.sequence - 1, cp.sequence - 1);
    }
  }
}
