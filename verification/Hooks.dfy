/** The git hook installer, and the read-only inspection that reports on it. */
module Hooks {
  import opened Option
  import opened Text
  import opened HookFiles
  import ShellQuote

  const MARKER := "# HASP-MANAGED-HOOK"
  const REVISION := "# HASP-HOOK-REVISION: 4"
  const EXEC_BITS: Mode := 0x49   // 0o111
  const HOOK_MODE: Mode := 0x1ED  // 0o755

  const PREAMBLE := "#!/usr/bin/env bash\nset -euo pipefail\n"
  const FIND_ROOT := "project_root=\"$(git -c core.hooksPath=/dev/null -c safe.directory='*' "
                     + "rev-parse --show-toplevel 2>/dev/null || pwd)\"\n"
  const SPOOL := "updates_file=\"$(umask 077; mktemp \"${TMPDIR:-/tmp}/hasp-pre-push.XXXXXX\")\"\n"
                 + "trap 'rm -f \"$updates_file\"' EXIT\n"
                 + "trap 'exit 1' HUP INT TERM\n" + "cat > \"$updates_file\"\n"
  const CHECK_STAGED := "hasp check-repo --project-root \"$project_root\" --staged\n"
  const CHECK_PUSH := "hasp check-repo --project-root \"$project_root\" --pre-push "
                      + "--remote \"$1\" --fail-on-skipped < \"$updates_file\"\n"

  /** The part of a hook that runs the saved hook first. */
  function Chain(hook: string, staged: bool): string
  {
    var saved := ShellQuote.SingleQuote(Backup(hook));
    "if [[ -x " + saved + " ]]; then\n  " + saved + " \"$@\"" + (if staged then "" else " < \"$updates_file\"")
    + "\nelif [[ -e " + saved + " || -L " + saved + " ]]; then\n"
    + "  printf 'warning: saved hook is not executable: %s; custom gates were skipped\n' " + saved + " >&2\nfi\n"
  }

  lemma ChainParts(hook: string, staged: bool)
    ensures var saved := ShellQuote.SingleQuote(Backup(hook));
      Chain(hook, staged) == RunSaved(saved) + AfterRun(saved, staged)
  {
    hide ShellQuote.SingleQuote;
  }

  lemma ChecksAre(staged: bool)
    ensures Check(staged) == if staged then CHECK_STAGED else CHECK_PUSH
  {
  }

  function Front(staged: bool): string
  {
    PREAMBLE + MARKER + "\n" + REVISION + "\n" + (if staged then FIND_ROOT else FIND_ROOT + SPOOL)
  }

  lemma ContentParts(hook: string, staged: bool, run: string, between: string)
    requires run + between == Chain(hook, staged)
    ensures HookContent(hook, staged) == Front(staged) + run + between + (if staged then CHECK_STAGED else CHECK_PUSH)
  {
    hide Chain;
    var top := PREAMBLE + MARKER + "\n" + REVISION + "\n";
    if staged {
      Regroup(top, FIND_ROOT, run, between, CHECK_STAGED);
    } else {
      Regroup(top, FIND_ROOT + SPOOL, run, between, CHECK_PUSH);
    }
  }

  lemma Regroup(a: string, b: string, c: string, d: string, e: string)
    ensures a + (b + (c + d) + e) == a + b + c + d + e
  {
  }

  function HookContent(hook: string, staged: bool): string
  {
    PREAMBLE + MARKER + "\n" + REVISION + "\n" + Body(hook, staged)
  }

  function Body(hook: string, staged: bool): string
  {
    if staged then FIND_ROOT + Chain(hook, true) + CHECK_STAGED
    else FIND_ROOT + SPOOL + Chain(hook, false) + CHECK_PUSH
  }

  /** The hook's text runs the saved hook, named as one shell word, and ends in the check of the repository. */
  lemma HookRunsBoth(hook: string, staged: bool)
    ensures ShellQuote.Words(ShellQuote.SingleQuote(Backup(hook))) == Some([hook + ".pre-hasp"])
    ensures exists before, between ::
      HookContent(hook, staged) == before + RunSaved(ShellQuote.SingleQuote(Backup(hook))) + between + Check(staged)
  {
    ShellQuote.WordsOfSingleQuote(Backup(hook));
    var saved := ShellQuote.SingleQuote(Backup(hook));
    ChainParts(hook, staged);
    ChecksAre(staged);
    hide RunSaved, AfterRun, Check, Chain, HookContent, ShellQuote.SingleQuote, ShellQuote.Words;
    var before := Front(staged);
    ContentParts(hook, staged, RunSaved(saved), AfterRun(saved, staged));
    assert HookContent(hook, staged) == before + RunSaved(saved) + AfterRun(saved, staged) + Check(staged);
  }

  function RunSaved(saved: string): string
  {
    "if [[ -x " + saved + " ]]; then\n  " + saved + " \"$@\""
  }

  function AfterRun(saved: string, staged: bool): string
  {
    (if staged then "" else " < \"$updates_file\"") + "\nelif [[ -e " + saved + " || -L " + saved + " ]]; then\n"
    + "  printf 'warning: saved hook is not executable: %s; custom gates were skipped\n' " + saved + " >&2\nfi\n"
  }

  function Check(staged: bool): string
  {
    if staged then "hasp check-repo --project-root \"$project_root\" --staged\n"
    else "hasp check-repo --project-root \"$project_root\" --pre-push "
         + "--remote \"$1\" --fail-on-skipped < \"$updates_file\"\n"
  }

  // ----- Inspection

  datatype State = NoHook | Custom | NotExecutable | Outdated | Ready | UnreadableHook

  datatype HookStatus = HookStatus(state: State, present: bool, managed: bool, executable: bool, current: bool)

  predicate Managed(content: string)
  {
    Contains(content, MARKER)
  }

  lemma ManagedMeans(content: string)
    ensures Managed(content) <==> Contains(content, "# HASP-MANAGED-HOOK")
  {
  }

  /** A marker line is found exactly when it is a line of the file. */
  lemma CurrentMeans(content: string)
    ensures Current(content)
       <==> Contains(content, "# HASP-MANAGED-HOOK") && "# HASP-HOOK-REVISION: 4" in Split(content, '\n')
  {
    RevisionIsOneLine();
    WholeLine(content, REVISION);
    ManagedMeans(content);
  }

  lemma RevisionIsOneLine()
    ensures Without(REVISION, '\n') && REVISION == "# HASP-HOOK-REVISION: 4"
  {
  }

  predicate Current(content: string)
  {
    Managed(content) && Contains("\n" + content + "\n", "\n" + REVISION + "\n")
  }

  // How looking at a hook goes.
  datatype Look = Seen | StatFails | ReadFails

  /** inspectHook, for the owner of the files. */
  function InspectHook(fs: FS, hook: string, look: Look): HookStatus
  {
    if look.StatFails? then HookStatus(UnreadableHook, false, false, false, false)
    else if hook !in fs then HookStatus(NoHook, false, false, false, false)
    else if !fs[hook].File? then HookStatus(Custom, true, false, false, false)
    else
      var File(content, mode) := fs[hook];
      var executable := mode & 0x40 != 0;
      if look.ReadFails? then HookStatus(UnreadableHook, true, false, executable, false)
      else
        var managed, current := Managed(content), Current(content);
        var state := if !managed then Custom else if !executable then NotExecutable
                     else if !current then Outdated else Ready;
        HookStatus(state, true, managed, executable, current)
  }

  datatype RepoState = RepoReady | RepoOutdated | RepoUnavailable | RepoPartial | RepoMissing | RepoCustom

  /** Inspect, once git has told the hooks directory. */
  function Inspect(fs: FS, hooksDir: string, first: Look, second: Look): RepoState
  {
    var c, p := InspectHook(fs, PreCommit(hooksDir), first), InspectHook(fs, PrePush(hooksDir), second);
    var installed := c.managed && c.executable && p.managed && p.executable;
    if installed && c.current && p.current then RepoReady
    else if installed then RepoOutdated
    else if c.state == UnreadableHook || p.state == UnreadableHook then RepoUnavailable
    else if c.managed || p.managed then RepoPartial
    else if !c.present && !p.present then RepoMissing
    else RepoCustom
  }

  /** A regular file that holds the marker and that its owner may execute. */
  predicate Gate(fs: FS, hook: string)
  {
    hook in fs && fs[hook].File? && Contains(fs[hook].content, "# HASP-MANAGED-HOOK") && fs[hook].mode & 0x40 != 0
  }

  predicate NewGate(fs: FS, hook: string)
  {
    Gate(fs, hook) && "# HASP-HOOK-REVISION: 4" in Split(fs[hook].content, '\n')
  }

  predicate Marked(fs: FS, hook: string)
  {
    hook in fs && fs[hook].File? && Contains(fs[hook].content, "# HASP-MANAGED-HOOK")
  }

  /** What Inspect tells of two hooks it can read. */
  lemma InspectMeans(fs: FS, hooksDir: string)
    ensures var c, p := hooksDir + "/pre-commit", hooksDir + "/pre-push";
      var state := Inspect(fs, hooksDir, Seen, Seen);
      && (state == RepoReady <==> NewGate(fs, c) && NewGate(fs, p))
      && (state == RepoOutdated <==> Gate(fs, c) && Gate(fs, p) && !(NewGate(fs, c) && NewGate(fs, p)))
      && (state == RepoPartial <==> !(Gate(fs, c) && Gate(fs, p)) && (Marked(fs, c) || Marked(fs, p)))
      && (state == RepoMissing <==> c !in fs && p !in fs)
      && state != RepoUnavailable
  {
    var c, p := hooksDir + "/pre-commit", hooksDir + "/pre-push";
    HookMeans(fs, c);
    HookMeans(fs, p);
    assert PreCommit(hooksDir) == c && PrePush(hooksDir) == p;
    hide InspectHook, NewGate, Contains;
  }

  lemma HookMeans(fs: FS, hook: string)
    ensures var status := InspectHook(fs, hook, Seen);
      && (status.present <==> hook in fs) && (status.managed <==> Marked(fs, hook))
      && (status.managed && status.executable <==> Gate(fs, hook))
      && (status.managed && status.executable && status.current <==> NewGate(fs, hook))
      && status.state != UnreadableHook
      && (status.state == Ready <==> NewGate(fs, hook))
  {
    hide Managed, Current, Contains, Split;
    if hook in fs && fs[hook].File? {
      ManagedMeans(fs[hook].content);
      CurrentMeans(fs[hook].content);
    }
  }

  function PreCommit(hooksDir: string): string
  {
    hooksDir + "/pre-commit"
  }

  function PrePush(hooksDir: string): string
  {
    hooksDir + "/pre-push"
  }

  /** The hook holds this text, and anyone may run it. */
  predicate HoldsExecutable(fs: FS, hook: string, content: string)
  {
    && hook in fs && fs[hook].File?
    && fs[hook].content == content
    && fs[hook].mode & EXEC_BITS == EXEC_BITS
  }

  /** The hook is the one this build writes. */
  predicate Installed(fs: FS, hook: string, staged: bool)
  {
    HoldsExecutable(fs, hook, HookContent(hook, staged))
  }

  lemma ContainsPart(head: string, part: string, tail: string)
    ensures Contains(head + part + tail, part)
  {
    var s := head + part + tail;
    assert s[|head|..|head| + |part|] == part;
    assert OccursAt(s, part, |head|);
  }

  lemma LinesAreFound(head: string, first: string, second: string, tail: string)
    ensures var s := head + first + "\n" + second + "\n" + tail;
      && Contains(s, first)
      && Contains("\n" + s + "\n", "\n" + second + "\n")
  {
    var s := head + first + "\n" + second + "\n" + tail;
    hide Contains;
    assert Contains(s, first) by {
      ContainsPart(head, first, "\n" + second + "\n" + tail);
      assert s == head + first + ("\n" + second + "\n" + tail);
    }
    ContainsPart("\n" + head + first, "\n" + second + "\n", tail + "\n");
    assert "\n" + s + "\n" == ("\n" + head + first) + ("\n" + second + "\n") + (tail + "\n");
  }

  lemma ContentIsCurrent(hook: string, staged: bool)
    ensures Managed(HookContent(hook, staged)) && Current(HookContent(hook, staged))
  {
    LinesAreFound(PREAMBLE, MARKER, REVISION, Body(hook, staged));
  }

  lemma InstalledIsReady(fs: FS, hook: string, staged: bool)
    requires Installed(fs, hook, staged)
    ensures InspectHook(fs, hook, Seen).state == Ready
  {
    ContentIsCurrent(hook, staged);
    ExecBitsIncludeOwner(fs[hook].mode);
  }

  lemma ExecBitsIncludeOwner(mode: Mode)
    requires mode & EXEC_BITS == EXEC_BITS
    ensures mode & 0x40 != 0
  {
  }

  // ----- Installation

  /** A link or a directory stands where the hook or its backup belongs. */
  predicate Blocked(fs: FS, hook: string)
  {
    Irregular(fs, hook) || Irregular(fs, Backup(hook))
  }

  method RefuseSymlink(disk: Disk, path: string) returns (ok: bool)
    modifies disk`faults
    ensures old(disk.faults) <= disk.faults
    ensures ok ==> path in disk.files ==> !disk.files[path].Symlink?
    ensures !ok ==> old(disk.faults) < disk.faults || Irregular(disk.files, path)
  {
    var fails: bool := *;
    disk.faults := if fails then disk.faults + 1 else disk.faults;
    ok := !fails && (path in disk.files ==> !disk.files[path].Symlink?);
  }

  /** Chmod of a file of the family, added to what was done before. */
  method SafeChmod(disk: Disk, path: string, mode: Mode, hook: string, ghost start: FS, ghost from: nat)
    returns (ok: bool)
    requires path == hook || path == Backup(hook)
    requires Safe(start, disk.files, hook) && AllSafe(start, disk.trace, from, hook)
    modifies disk
    ensures old(disk.trace) <= disk.trace
    ensures Safe(start, disk.files, hook) && AllSafe(start, disk.trace, from, hook)
    ensures ReadNode(disk.files, path) == ReadNode(old(disk.files), path)
    ensures ok ==> path in disk.files && disk.files[path].File? && disk.files[path].mode == mode
    ensures forall n :: n != path ==> ReadNode(disk.files, n) == ReadNode(old(disk.files), n)
    ensures OnlyTouches(old(disk.files), disk.files, path) && OnlyFamily(old(disk.files), disk.files, hook)
    ensures old(disk.faults) <= disk.faults && NewAreFiles(old(disk.files), disk.files)
    ensures !ok ==> old(disk.faults) < disk.faults || !ReadNode(old(disk.files), path).Content?
  {
    ok := disk.Chmod(path, mode);
    ChmodIsSafe(old(disk.files), disk.files, path, hook);
    SafeChain(start, old(disk.files), disk.files, old(disk.trace), disk.trace, from, hook);
  }

  /** Copies a text that is about to be overwritten to a new `.hasp-replaced-` file. */
  method SafeSave(disk: Disk, path: string, text: string, mode: Mode, suffix: string, hook: string,
                  ghost start: FS, ghost from: nat)
    returns (saved: Option<string>)
    requires path == hook || path == Backup(hook)
    requires ReadNode(disk.files, path) == Content(text)
    requires Safe(start, disk.files, hook) && AllSafe(start, disk.trace, from, hook)
    modifies disk
    ensures old(disk.trace) <= disk.trace
    ensures Safe(start, disk.files, hook) && AllSafe(start, disk.trace, from, hook)
    ensures forall n :: n in old(disk.files) ==> n in disk.files && disk.files[n] == old(disk.files)[n]
    ensures saved.Some? ==>
      && saved.value !in old(disk.files) && InFamily(saved.value, hook)
      && ReadNode(disk.files, saved.value) == Content(text)
    ensures forall n :: n in {hook, Backup(hook)} ==> (n in disk.files <==> n in old(disk.files))
    ensures OnlyFamily(old(disk.files), disk.files, hook)
    ensures old(disk.faults) <= disk.faults && NewAreFiles(old(disk.files), disk.files)
    ensures saved.None? ==> old(disk.faults) < disk.faults
  {
    saved := disk.SaveReplaced(path, text, mode, suffix);
    ghost var name := path + ".hasp-replaced-" + suffix;
    assert path + ".hasp-replaced-" <= name;
    if name !in old(disk.files) {
      OverwritesAreSafe(old(disk.files), disk.files, disk.trace, |old(disk.trace)|, name, "", hook);
      SafeChain(start, old(disk.files), disk.files, old(disk.trace), disk.trace, from, hook);
    }
    assert |name| > |hook| && name != Backup(hook) by {
      if path == hook {
        assert Backup(hook)[|hook| + 1] == 'p' && name[|hook| + 1] == 'h';
      }
    }
  }

  /** Overwrites a file of the family whose text, if it has one, is also in `copy`. */
  method SafeWrite(disk: Disk, path: string, text: string, mode: Mode, ghost copy: string, hook: string,
                   ghost start: FS, ghost from: nat)
    returns (ok: bool)
    requires path == hook || path == Backup(hook)
    requires path in disk.files ==> !disk.files[path].Symlink?
    requires ReadNode(disk.files, path).Content? ==>
      copy != path && InFamily(copy, hook) && ReadNode(disk.files, copy) == ReadNode(disk.files, path)
    requires Safe(start, disk.files, hook) && AllSafe(start, disk.trace, from, hook)
    modifies disk
    ensures old(disk.trace) <= disk.trace
    ensures Safe(start, disk.files, hook) && AllSafe(start, disk.trace, from, hook)
    ensures ok ==> ReadNode(disk.files, path) == Content(text)
    ensures OnlyTouches(old(disk.files), disk.files, path) && OnlyFamily(old(disk.files), disk.files, hook)
    ensures forall n :: n != path ==> ReadNode(disk.files, n) == ReadNode(old(disk.files), n)
    ensures forall n :: n != path && n in old(disk.files) ==> n in disk.files && disk.files[n] == old(disk.files)[n]
    ensures old(disk.faults) <= disk.faults && NewAreFiles(old(disk.files), disk.files)
    ensures !ok ==> old(disk.faults) < disk.faults || Irregular(old(disk.files), path)
  {
    ok := disk.WriteFile(path, text, mode);
    OverwritesAreSafe(old(disk.files), disk.files, disk.trace, |old(disk.trace)|, path, copy, hook);
    SafeChain(start, old(disk.files), disk.files, old(disk.trace), disk.trace, from, hook);
  }

  /** Keeps a user's hook as the backup, and what it replaces there as a `.hasp-replaced-` file. */
  method SaveUserHook(disk: Disk, hook: string, existing: string, suffix: string) returns (ok: bool)
    requires ReadNode(disk.files, hook) == Content(existing)
    modifies disk
    ensures old(disk.trace) <= disk.trace
    ensures Safe(old(disk.files), disk.files, hook)
    ensures AllSafe(old(disk.files), disk.trace, |old(disk.trace)|, hook)
    ensures ReadNode(disk.files, hook) == Content(existing)
    ensures ok ==> ReadNode(disk.files, Backup(hook)) == Content(existing)
    ensures ok && ReadNode(old(disk.files), Backup(hook)) != Content(existing) ==>
      disk.files[Backup(hook)].mode == old(disk.files)[hook].mode
    ensures OnlyFamily(old(disk.files), disk.files, hook)
    ensures old(disk.faults) <= disk.faults && NewAreFiles(old(disk.files), disk.files)
    ensures !ok ==> old(disk.faults) < disk.faults || Irregular(old(disk.files), Backup(hook))
  {
    var backup := Backup(hook);
    ghost var start, from := disk.files, |disk.trace|;
    ok := RefuseSymlink(disk, backup);
    if !ok {
      return false;
    }
    var mode := disk.files[hook].mode;
    var previous := disk.Read(backup);
    if previous.Unreadable? {
      return false;
    }
    if previous == Content(existing) {
      return true;
    }
    ghost var copy := hook;
    if previous.Content? {
      var saved := SafeSave(disk, backup, previous.text, disk.files[backup].mode, suffix, hook, start, from);
      if saved.None? {
        return false;
      }
      copy := saved.value;
    }
    ok := SafeWrite(disk, backup, existing, mode, copy, hook, start, from);
    if ok {
      ok := SafeChmod(disk, backup, mode, hook, start, from);
    }
  }

  /** The last part of installHook: a user's hook is in the backup by now, a changed HASP hook is saved first. */
  method ReplaceHook(disk: Disk, hook: string, content: string, existing: ReadResult, suffix: string,
                     ghost start: FS, ghost from: nat)
    returns (ok: bool)
    requires hook in disk.files ==> !disk.files[hook].Symlink?
    requires existing == ReadNode(disk.files, hook) && !existing.Unreadable?
    requires existing.Content? && !Managed(existing.text) ==> ReadNode(disk.files, Backup(hook)) == existing
    requires Safe(start, disk.files, hook) && AllSafe(start, disk.trace, from, hook)
    modifies disk
    ensures old(disk.trace) <= disk.trace
    ensures Safe(start, disk.files, hook) && AllSafe(start, disk.trace, from, hook)
    ensures ok ==> HoldsExecutable(disk.files, hook, content)
    ensures SameNode(old(disk.files), disk.files, Backup(hook)) && OnlyFamily(old(disk.files), disk.files, hook)
    ensures old(disk.faults) <= disk.faults && NewAreFiles(old(disk.files), disk.files)
    ensures !ok ==> old(disk.faults) < disk.faults
  {
    ghost var copy := Backup(hook);
    if existing.Content? && Managed(existing.text) {
      var saved := SafeSave(disk, hook, existing.text, 0x180, suffix, hook, start, from);
      if saved.None? {
        return false;
      }
      copy := saved.value;
    }
    ok := SafeWrite(disk, hook, content, HOOK_MODE, copy, hook, start, from);
    if ok {
      ok := SafeChmod(disk, hook, HOOK_MODE, hook, start, from);
    }
  }

  /** A user's hook is in the backup when an install has succeeded, under the mode it had unless the backup had its
      text already; and when the hook was no user's text, the backup is not touched. */
  predicate KeepsUserHook(before: FS, after: FS, hook: string, ok: bool)
  {
    var was, backup := ReadNode(before, hook), Backup(hook);
    if was.Content? && !Managed(was.text) then
      ok ==> ReadNode(after, backup) == was
             && (ReadNode(before, backup) != was ==> after[backup].mode == before[hook].mode)
    else SameNode(before, after, backup)
  }

  /** The text is there already; only its mode may be wrong. */
  method MakeExecutable(disk: Disk, hook: string, content: string, ghost start: FS, ghost from: nat) returns (ok: bool)
    requires ReadNode(disk.files, hook) == Content(content)
    requires Safe(start, disk.files, hook) && AllSafe(start, disk.trace, from, hook) && NewAreFiles(start, disk.files)
    modifies disk
    ensures old(disk.trace) <= disk.trace
    ensures Safe(start, disk.files, hook) && AllSafe(start, disk.trace, from, hook) && NewAreFiles(start, disk.files)
    ensures old(disk.faults) <= disk.faults
    ensures ok ==> HoldsExecutable(disk.files, hook, content)
    ensures !ok ==> old(disk.faults) < disk.faults
    ensures HoldsExecutable(old(disk.files), hook, content) ==>
      disk.files == old(disk.files) && disk.trace == old(disk.trace)
    ensures SameNode(old(disk.files), disk.files, Backup(hook)) && OnlyFamily(old(disk.files), disk.files, hook)
  {
    hide Safe, AllSafe, NewAreFiles;
    assert OnlyFamily(disk.files, disk.files, hook);
    ok := true;
    if disk.files[hook].mode & EXEC_BITS != EXEC_BITS {
      ok := SafeChmod(disk, hook, HOOK_MODE, hook, start, from);
      NewAreFilesChain(start, old(disk.files), disk.files);
    }
  }

  lemma NothingTouchedYet(files: FS, trace: seq<FS>, hook: string)
    ensures Safe(files, files, hook) && AllSafe(files, trace, |trace|, hook) && NewAreFiles(files, files)
  {
  }

  lemma NewAreFilesChain(a: FS, b: FS, c: FS)
    requires NewAreFiles(a, b) && NewAreFiles(b, c)
    ensures NewAreFiles(a, c)
  {
  }

  /** Replaces the hook by `content`, keeping what was there. */
  method InstallContent(disk: Disk, hook: string, content: string, suffix: string) returns (ok: bool)
    requires Managed(content)
    modifies disk
    ensures old(disk.trace) <= disk.trace
    ensures Safe(old(disk.files), disk.files, hook)
    ensures AllSafe(old(disk.files), disk.trace, |old(disk.trace)|, hook)
    ensures ok ==> HoldsExecutable(disk.files, hook, content)
    ensures HoldsExecutable(old(disk.files), hook, content) ==>
      disk.files == old(disk.files) && disk.trace == old(disk.trace)
    ensures old(disk.faults) <= disk.faults && NewAreFiles(old(disk.files), disk.files)
    ensures !ok ==> old(disk.faults) < disk.faults || Blocked(old(disk.files), hook)
    ensures KeepsUserHook(old(disk.files), disk.files, hook, ok) && OnlyFamily(old(disk.files), disk.files, hook)
  {
    ghost var start, from := disk.files, |disk.trace|;
    NothingTouchedYet(start, disk.trace, hook);
    hide Safe, AllSafe, NewAreFiles, Managed, Backup, Contains, OccursAt, InFamily, Conserves;
    ok := RefuseSymlink(disk, hook);
    if !ok {
      return false;
    }
    var existing := disk.Read(hook);
    if existing.Unreadable? {
      return false;
    }
    if existing.Content? && !Managed(existing.text) {
      ok := SaveUserHook(disk, hook, existing.text, suffix);
      if !ok {
        return false;
      }
    }
    if existing == Content(content) {
      ok := MakeExecutable(disk, hook, content, start, from);
      return;
    }
    ghost var between := disk.files;
    ok := ReplaceHook(disk, hook, content, existing, suffix, start, from);
    NewAreFilesChain(start, between, disk.files);
  }

  /** Whatever goes wrong, and wherever it stops, every text that a file of the hook's family held in full
      at the start is held in full in every state passed through. */
  method InstallHook(disk: Disk, hook: string, staged: bool, suffix: string) returns (ok: bool)
    modifies disk
    ensures old(disk.trace) <= disk.trace
    ensures Safe(old(disk.files), disk.files, hook)
    ensures AllSafe(old(disk.files), disk.trace, |old(disk.trace)|, hook)
    ensures ok ==> Installed(disk.files, hook, staged)
    ensures Installed(old(disk.files), hook, staged) ==>
      disk.files == old(disk.files) && disk.trace == old(disk.trace)
    ensures old(disk.faults) <= disk.faults && NewAreFiles(old(disk.files), disk.files)
    ensures !ok ==> old(disk.faults) < disk.faults || Blocked(old(disk.files), hook)
    ensures KeepsUserHook(old(disk.files), disk.files, hook, ok) && OnlyFamily(old(disk.files), disk.files, hook)
  {
    hide HookContent, Managed, Current, Safe, AllSafe;
    ContentIsCurrent(hook, staged);
    ok := InstallContent(disk, hook, HookContent(hook, staged), suffix);
  }

  // ----- Both hooks

  /** The two hooks share no file. */
  lemma FamiliesAreApart(hooksDir: string, hook: string, other: string, name: string)
    requires {hook, other} == {PreCommit(hooksDir), PrePush(hooksDir)}
    requires InFamily(name, hook)
    ensures name != other && name != Backup(other)
  {
    assert hook == PreCommit(hooksDir) || hook == PrePush(hooksDir);
    assert other == PreCommit(hooksDir) || other == PrePush(hooksDir);
    assert PreCommit(hooksDir) in {hook, other} && PrePush(hooksDir) in {hook, other};
    var at := |hooksDir| + 5;
    assert PreCommit(hooksDir)[at] == 'c' && PrePush(hooksDir)[at] == 'p';
    assert hook != other && hook <= name && name[at] == hook[at];
    assert other <= Backup(other) && Backup(other)[at] == other[at];
  }

  /** Installing one hook moves no text of the other. */
  lemma OtherIsSpared(hooksDir: string, hook: string, other: string, before: FS, after: FS)
    requires {hook, other} == {PreCommit(hooksDir), PrePush(hooksDir)}
    requires Safe(before, after, other)
    ensures Conserves(before, after, hook)
  {
    forall text | Holds(before, hook, text)
      ensures Holds(after, hook, text)
    {
      var n :| n in before && InFamily(n, hook) && before[n].File? && before[n].content == text;
      FamiliesAreApart(hooksDir, hook, other, n);
      assert n in after && after[n] == before[n];
    }
  }

  ghost predicate BothConserve(before: FS, after: FS, hooksDir: string)
  {
    Conserves(before, after, PreCommit(hooksDir)) && Conserves(before, after, PrePush(hooksDir))
  }

  lemma SafeIsConservative(hooksDir: string, hook: string, before: FS, after: FS)
    requires hook == PreCommit(hooksDir) || hook == PrePush(hooksDir)
    requires Safe(before, after, hook)
    ensures BothConserve(before, after, hooksDir)
  {
    if hook == PreCommit(hooksDir) {
      OtherIsSpared(hooksDir, PrePush(hooksDir), hook, before, after);
    } else {
      OtherIsSpared(hooksDir, PreCommit(hooksDir), hook, before, after);
    }
  }

  ghost predicate AllConserve(before: FS, trace: seq<FS>, from: nat, hooksDir: string)
  {
    from <= |trace| && forall i :: from <= i < |trace| ==> BothConserve(before, trace[i], hooksDir)
  }

  lemma SafeTraceConserves(hooksDir: string, hook: string, start: FS, before: FS, trace: seq<FS>, from: nat)
    requires hook == PreCommit(hooksDir) || hook == PrePush(hooksDir)
    requires BothConserve(start, before, hooksDir) && AllSafe(before, trace, from, hook)
    ensures AllConserve(start, trace, from, hooksDir)
  {
    forall i | from <= i < |trace|
      ensures BothConserve(start, trace[i], hooksDir)
    {
      SafeIsConservative(hooksDir, hook, before, trace[i]);
    }
  }

  lemma AllConserveJoins(hooksDir: string, start: FS, first: seq<FS>, both: seq<FS>, from: nat)
    requires AllConserve(start, first, from, hooksDir)
    requires first <= both && AllConserve(start, both, |first|, hooksDir)
    ensures AllConserve(start, both, from, hooksDir)
  {
    forall i | from <= i < |both|
      ensures BothConserve(start, both[i], hooksDir)
    {
      if i < |first| {
        assert both[i] == first[i];
      }
    }
  }

  lemma ConserveChain(hooksDir: string, a: FS, b: FS, c: FS)
    requires BothConserve(a, b, hooksDir) && BothConserve(b, c, hooksDir)
    ensures BothConserve(a, c, hooksDir)
  {
  }

  /** One hook, added to what was done before. */
  method InstallOne(disk: Disk, hooksDir: string, hook: string, staged: bool, suffix: string,
                    ghost start: FS, ghost from: nat)
    returns (ok: bool)
    requires hook == PreCommit(hooksDir) || hook == PrePush(hooksDir)
    requires BothConserve(start, disk.files, hooksDir) && AllConserve(start, disk.trace, from, hooksDir)
    modifies disk
    ensures old(disk.trace) <= disk.trace
    ensures BothConserve(start, disk.files, hooksDir) && AllConserve(start, disk.trace, from, hooksDir)
    ensures Safe(old(disk.files), disk.files, hook)
    ensures ok ==> Installed(disk.files, hook, staged)
    ensures Installed(old(disk.files), hook, staged) ==>
      disk.files == old(disk.files) && disk.trace == old(disk.trace)
    ensures old(disk.faults) <= disk.faults && NewAreFiles(old(disk.files), disk.files)
    ensures !ok ==> old(disk.faults) < disk.faults || Blocked(old(disk.files), hook)
    ensures KeepsUserHook(old(disk.files), disk.files, hook, ok) && OnlyFamily(old(disk.files), disk.files, hook)
  {
    hide HookContent, Safe, AllSafe, BothConserve, AllConserve, PreCommit, PrePush;
    ok := InstallHook(disk, hook, staged, suffix);
    SafeIsConservative(hooksDir, hook, old(disk.files), disk.files);
    ConserveChain(hooksDir, start, old(disk.files), disk.files);
    SafeTraceConserves(hooksDir, hook, start, old(disk.files), disk.trace, |old(disk.trace)|);
    AllConserveJoins(hooksDir, start, old(disk.trace), disk.trace, from);
  }

  lemma NothingLostYet(files: FS, trace: seq<FS>, hooksDir: string)
    ensures BothConserve(files, files, hooksDir) && AllConserve(files, trace, |trace|, hooksDir)
  {
  }

  predicate KeepsBoth(before: FS, after: FS, hooksDir: string, ok: bool)
  {
    KeepsUserHook(before, after, PreCommit(hooksDir), ok) && KeepsUserHook(before, after, PrePush(hooksDir), ok)
  }

  /** What one hook keeps, the other hook's install does not undo. */
  lemma InstallsInTurnKeepBoth(hooksDir: string, start: FS, between: FS, end: FS, ok: bool)
    requires KeepsUserHook(start, between, PreCommit(hooksDir), true)
    requires OnlyFamily(start, between, PreCommit(hooksDir))
    requires KeepsUserHook(between, end, PrePush(hooksDir), ok)
    requires OnlyFamily(between, end, PrePush(hooksDir))
    ensures KeepsBoth(start, end, hooksDir, ok)
  {
    var first, second := PreCommit(hooksDir), PrePush(hooksDir);
    Strangers(hooksDir, first, second);
    Strangers(hooksDir, second, first);
    hide PreCommit, PrePush, Managed, InFamily;
    assert SameNode(start, between, second) && SameNode(start, between, Backup(second));
    assert SameNode(between, end, first) && SameNode(between, end, Backup(first));
  }

  lemma StoppedAfterFirst(hooksDir: string, start: FS, end: FS)
    requires KeepsUserHook(start, end, PreCommit(hooksDir), false)
    requires OnlyFamily(start, end, PreCommit(hooksDir))
    ensures KeepsBoth(start, end, hooksDir, false)
  {
    Strangers(hooksDir, PreCommit(hooksDir), PrePush(hooksDir));
    hide PreCommit, PrePush, Managed, InFamily;
    assert SameNode(start, end, Backup(PrePush(hooksDir)));
  }

  lemma Strangers(hooksDir: string, hook: string, other: string)
    requires {hook, other} == {PreCommit(hooksDir), PrePush(hooksDir)}
    ensures !InFamily(other, hook) && !InFamily(Backup(other), hook)
  {
    if InFamily(other, hook) {
      FamiliesAreApart(hooksDir, hook, other, other);
    }
    if InFamily(Backup(other), hook) {
      FamiliesAreApart(hooksDir, hook, other, Backup(other));
    }
  }

  predicate BothInstalled(fs: FS, hooksDir: string)
  {
    Installed(fs, PreCommit(hooksDir), true) && Installed(fs, PrePush(hooksDir), false)
  }

  /** Install: both hooks, in order. Whatever fails, and wherever it stops, no text that either hook's files
      held in full is lost. On success Inspect says ready, and installing again writes nothing. It succeeds
      unless an operation failed or a link or directory is in the way. */
  method Install(disk: Disk, hooksDir: string, suffix: string, suffix2: string) returns (ok: bool)
    modifies disk
    ensures old(disk.trace) <= disk.trace
    ensures BothConserve(old(disk.files), disk.files, hooksDir)
    ensures AllConserve(old(disk.files), disk.trace, |old(disk.trace)|, hooksDir)
    ensures ok ==> Inspect(disk.files, hooksDir, Seen, Seen) == RepoReady
    ensures ok ==> BothInstalled(disk.files, hooksDir)
    ensures BothInstalled(old(disk.files), hooksDir) ==>
      disk.files == old(disk.files) && disk.trace == old(disk.trace)
    ensures KeepsBoth(old(disk.files), disk.files, hooksDir, ok)
    ensures !ok ==> || old(disk.faults) < disk.faults
                    || Blocked(old(disk.files), PreCommit(hooksDir)) || Blocked(old(disk.files), PrePush(hooksDir))
  {
    hide *;
    var first, second := PreCommit(hooksDir), PrePush(hooksDir);
    ghost var start, from := disk.files, |disk.trace|;
    NothingLostYet(start, disk.trace, hooksDir);
    BothMeansEach(start, hooksDir);
    ok := InstallOne(disk, hooksDir, first, true, suffix, start, from);
    if !ok {
      StoppedAfterFirst(hooksDir, start, disk.files);
      return;
    }
    ghost var between := disk.files;
    ok := InstallOne(disk, hooksDir, second, false, suffix2, start, from);
    FirstStays(hooksDir, between, disk.files);
    BlockedBefore(start, between, second);
    InstallsInTurnKeepBoth(hooksDir, start, between, disk.files, ok);
    BothMeansEach(disk.files, hooksDir);
    if ok {
      BothReady(hooksDir, disk.files);
    }
  }

  lemma BothMeansEach(fs: FS, hooksDir: string)
    ensures BothInstalled(fs, hooksDir)
       <==> Installed(fs, PreCommit(hooksDir), true) && Installed(fs, PrePush(hooksDir), false)
  {
  }

  lemma BlockedBefore(before: FS, after: FS, hook: string)
    requires NewAreFiles(before, after)
    ensures Blocked(after, hook) ==> Blocked(before, hook)
  {
  }

  lemma FirstStays(hooksDir: string, before: FS, after: FS)
    requires Installed(before, PreCommit(hooksDir), true) && Safe(before, after, PrePush(hooksDir))
    ensures Installed(after, PreCommit(hooksDir), true)
  {
    hide HookContent;
    FamiliesAreApart(hooksDir, PreCommit(hooksDir), PrePush(hooksDir), PreCommit(hooksDir));
  }

  lemma BothReady(hooksDir: string, files: FS)
    requires Installed(files, PreCommit(hooksDir), true) && Installed(files, PrePush(hooksDir), false)
    ensures Inspect(files, hooksDir, Seen, Seen) == RepoReady
  {
    hide HookContent, Managed, Current, Installed, PreCommit, PrePush;
    InstalledIsReady(files, PreCommit(hooksDir), true);
    InstalledIsReady(files, PrePush(hooksDir), false);
  }

  // ----- Runs of installs, crashes and edits

  datatype Event =
    | Installs(suffix: string, suffix2: string)
    | Crashes(suffix: string, suffix2: string, at: nat)   // in the midst of an install
    | Edits(files: FS)                                    // by the user, anyhow

  /** One event, from the files before it to the files behind it. */
  ghost predicate Passes(hooksDir: string, before: FS, event: Event, after: FS, ok: bool)
  {
    match event
    case Edits(files) => after == files
    case Crashes(_, _, _) => BothConserve(before, after, hooksDir)
    case Installs(_, _) =>
      && BothConserve(before, after, hooksDir)
      && (ok ==> Inspect(after, hooksDir, Seen, Seen) == RepoReady)
      && (ok ==> BothInstalled(after, hooksDir))
      && KeepsBoth(before, after, hooksDir, ok)
      && (BothInstalled(before, hooksDir) ==> after == before)
  }

  ghost predicate History(hooksDir: string, states: seq<FS>, events: seq<Event>, oks: seq<bool>)
  {
    && |states| == |events| + 1 && |oks| == |events|
    && forall i :: 0 <= i < |events| ==> PassesAt(hooksDir, states, events, oks, i)
  }

  ghost predicate PassesAt(hooksDir: string, states: seq<FS>, events: seq<Event>, oks: seq<bool>, i: nat)
    requires i < |events| == |oks| && i + 1 < |states|
  {
    Passes(hooksDir, states[i], events[i], states[i + 1], oks[i])
  }

  /** Some edit took the text from the hook's files. */
  ghost predicate EditLost(hook: string, states: seq<FS>, events: seq<Event>, text: string)
    requires |events| < |states|
  {
    exists i :: (0 <= i < |events| && events[i].Edits?
                 && Holds(states[i], hook, text) && !Holds(states[i + 1], hook, text))
  }

  lemma {:induction false} LossNeedsEdit(hooksDir: string, hook: string, states: seq<FS>, events: seq<Event>,
                                         oks: seq<bool>, text: string)
    requires History(hooksDir, states, events, oks)
    requires hook == PreCommit(hooksDir) || hook == PrePush(hooksDir)
    requires Holds(states[0], hook, text) && !Holds(states[|events|], hook, text)
    ensures EditLost(hook, states, events, text)
    decreases |events|
  {
    hide Holds, PreCommit, PrePush;
    var last := |events| - 1;
    if |events| > 0 && !Holds(states[last], hook, text) {
      var before, some, same := states[..last + 1], events[..last], oks[..last];
      forall i | 0 <= i < last
        ensures PassesAt(hooksDir, before, some, same, i)
      {
        assert PassesAt(hooksDir, states, events, oks, i);
      }
      LossNeedsEdit(hooksDir, hook, before, some, same, text);
      assert forall i :: 0 <= i < last ==> some[i] == events[i];
    } else if |events| > 0 {
      assert PassesAt(hooksDir, states, events, oks, last);
    }
  }

  lemma EachConserves(start: FS, trace: seq<FS>, from: nat, hooksDir: string)
    requires AllConserve(start, trace, from, hooksDir)
    ensures from <= |trace| && forall i :: from <= i < |trace| ==> BothConserve(start, trace[i], hooksDir)
  {
  }

  /** An install that is stopped in a state it passes through, the first one included. */
  method CrashInInstall(disk: Disk, hooksDir: string, suffix: string, suffix2: string, at: nat)
    modifies disk
    ensures BothConserve(old(disk.files), disk.files, hooksDir)
  {
    hide *;
    var start, from := disk.files, |disk.trace|;
    NothingLostYet(start, disk.trace, hooksDir);
    var _ := Install(disk, hooksDir, suffix, suffix2);
    EachConserves(start, disk.trace, from, hooksDir);
    if at == 0 || from == |disk.trace| {
      disk.Become(start);
    } else {
      var reached := from + at % (|disk.trace| - from);
      disk.Become(disk.trace[reached]);
    }
  }

  /** One event happens. */
  method Happen(disk: Disk, hooksDir: string, event: Event) returns (ok: bool)
    modifies disk
    ensures Passes(hooksDir, old(disk.files), event, disk.files, ok)
  {
    hide BothConserve, AllConserve, Inspect, Installed, Blocked;
    ok := true;
    match event {
      case Installs(suffix, suffix2) =>
        ok := Install(disk, hooksDir, suffix, suffix2);
      case Crashes(suffix, suffix2, at) =>
        CrashInInstall(disk, hooksDir, suffix, suffix2, at);
      case Edits(files) =>
        disk.Become(files);
    }
  }

  /** The text was in the hook's files and is no more. */
  ghost predicate Lost(before: FS, after: FS, hooksDir: string, hook: string, text: string)
  {
    && (hook == PreCommit(hooksDir) || hook == PrePush(hooksDir))
    && Holds(before, hook, text) && !Holds(after, hook, text)
  }

  /** Over any run of installs, crashes within installs, and edits: a text that a hook's files held at the start and
      do not hold at the end was taken by an edit. Every install that succeeds leaves the repository ready, and
      one that finds both hooks installed writes nothing. */
  method RunHistory(disk: Disk, hooksDir: string, events: seq<Event>) returns (states: seq<FS>, oks: seq<bool>)
    modifies disk
    ensures History(hooksDir, states, events, oks)
    ensures states[0] == old(disk.files) && states[|events|] == disk.files
    ensures forall hook, text :: Lost(old(disk.files), disk.files, hooksDir, hook, text) ==>
                                   EditLost(hook, states, events, text)
  {
    states, oks := [disk.files], [];
    for i := 0 to |events|
      invariant History(hooksDir, states, events[..i], oks)
      invariant states[0] == old(disk.files) && states[i] == disk.files
    {
      hide PassesAt, Passes;
      var ok := Happen(disk, hooksDir, events[i]);
      HistoryGrows(hooksDir, states, events[..i], oks, events[i], disk.files, ok);
      assert events[..i + 1] == events[..i] + [events[i]];
      states, oks := states + [disk.files], oks + [ok];
    }
    assert events[..|events|] == events;
    forall hook, text | Lost(states[0], states[|events|], hooksDir, hook, text)
      ensures EditLost(hook, states, events, text)
    {
      LossNeedsEdit(hooksDir, hook, states, events, oks, text);
    }
  }

  lemma HistoryGrows(hooksDir: string, states: seq<FS>, events: seq<Event>, oks: seq<bool>,
                     event: Event, after: FS, ok: bool)
    requires History(hooksDir, states, events, oks) && Passes(hooksDir, states[|events|], event, after, ok)
    ensures History(hooksDir, states + [after], events + [event], oks + [ok])
  {
    hide Passes;
    forall i | 0 <= i < |events| + 1
      ensures PassesAt(hooksDir, states + [after], events + [event], oks + [ok], i)
    {
      assert i < |events| ==> PassesAt(hooksDir, states, events, oks, i);
    }
  }
}
