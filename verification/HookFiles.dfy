/**
  A file system as the hook installer sees it, in which a write truncates first and then adds
  text piece by piece, and in which any operation may fail. Every state passed through is kept
  in a trace: these are the states a crash can leave behind. A counter tells how many operations have failed
  for no reason that the files show.
 */
module HookFiles {
  import opened Option

  type Mode = bv9

  datatype Node = File(content: string, mode: Mode) | Symlink | Directory

  type FS = map<string, Node>

  datatype ReadResult = Missing | Content(text: string) | Unreadable

  function ReadNode(fs: FS, path: string): ReadResult
  {
    if path !in fs then Missing else if fs[path].File? then Content(fs[path].content) else Unreadable
  }

  /** Only the file at `path` differs. */
  ghost predicate OnlyTouches(before: FS, after: FS, path: string)
  {
    forall n :: n != path ==> (n in before <==> n in after) && (n in before ==> before[n] == after[n])
  }

  /** What is not a regular file was there before. */
  ghost predicate NewAreFiles(before: FS, after: FS)
  {
    forall n :: n in after && !after[n].File? ==> n in before && before[n] == after[n]
  }

  /** The file at `path`, or its absence, is as it was. */
  predicate SameNode(before: FS, after: FS, path: string)
  {
    (path in before <==> path in after) && (path in before ==> before[path] == after[path])
  }

  predicate Irregular(fs: FS, path: string)
  {
    path in fs && !fs[path].File?
  }

  // ----- The files of one hook

  function Backup(hook: string): string
  {
    hook + ".pre-hasp"
  }

  /** The hook, its saved predecessor, and replaced copies of either. */
  predicate InFamily(name: string, hook: string)
  {
    || name == hook
    || name == Backup(hook)
    || hook + ".hasp-replaced-" <= name
    || Backup(hook) + ".hasp-replaced-" <= name
  }

  /** Nothing but the hook's own files differs. */
  ghost predicate OnlyFamily(before: FS, after: FS, hook: string)
  {
    forall n :: !InFamily(n, hook) ==> SameNode(before, after, n)
  }

  ghost predicate Holds(fs: FS, hook: string, text: string)
  {
    exists n :: n in fs && InFamily(n, hook) && fs[n].File? && fs[n].content == text
  }

  /** Whatever text was held in full by a file of the family still is. */
  ghost predicate Conserves(before: FS, after: FS, hook: string)
  {
    forall text :: Holds(before, hook, text) ==> Holds(after, hook, text)
  }

  /** Conserves the family, and leaves every file but the hook and its backup as it was. */
  ghost predicate Safe(before: FS, after: FS, hook: string)
  {
    && Conserves(before, after, hook)
    && forall n :: n in before && n != hook && n != Backup(hook) ==> n in after && after[n] == before[n]
  }

  ghost predicate AllSafe(before: FS, trace: seq<FS>, from: nat, hook: string)
  {
    from <= |trace| && forall i :: from <= i < |trace| ==> Safe(before, trace[i], hook)
  }

  ghost predicate AllTouch(before: FS, trace: seq<FS>, from: nat, path: string)
  {
    from <= |trace| && forall i :: from <= i < |trace| ==> OnlyTouches(before, trace[i], path)
  }

  lemma SafeChain(a: FS, b: FS, c: FS, first: seq<FS>, both: seq<FS>, from: nat, hook: string)
    requires Safe(a, b, hook) && AllSafe(a, first, from, hook)
    requires first <= both && Safe(b, c, hook) && AllSafe(b, both, |first|, hook)
    ensures Safe(a, c, hook) && AllSafe(a, both, from, hook)
  {
    forall i | from <= i < |both|
      ensures Safe(a, both[i], hook)
    {
      if i < |first| {
        assert both[i] == first[i];
      }
    }
  }

  /** Overwriting one file is harmless to a family that holds the file's text elsewhere. */
  lemma OverwriteIsSafe(before: FS, after: FS, path: string, copy: string, hook: string)
    requires OnlyTouches(before, after, path)
    requires path == hook || path == Backup(hook) || path !in before
    requires path in before && before[path].File? ==>
      && copy != path && copy in before && InFamily(copy, hook)
      && before[copy].File? && before[copy].content == before[path].content
    ensures Safe(before, after, hook)
  {
    forall text | Holds(before, hook, text)
      ensures Holds(after, hook, text)
    {
      var n :| n in before && InFamily(n, hook) && before[n].File? && before[n].content == text;
      if n != path {
        assert n in after && after[n] == before[n];
      } else {
        assert copy in after && after[copy] == before[copy];
      }
    }
  }

  lemma OverwritesAreSafe(before: FS, after: FS, trace: seq<FS>, from: nat, path: string, copy: string, hook: string)
    requires OnlyTouches(before, after, path) && AllTouch(before, trace, from, path)
    requires path == hook || path == Backup(hook) || path !in before
    requires path in before && before[path].File? ==>
      && copy != path && copy in before && InFamily(copy, hook)
      && before[copy].File? && before[copy].content == before[path].content
    ensures Safe(before, after, hook) && AllSafe(before, trace, from, hook)
  {
    OverwriteIsSafe(before, after, path, copy, hook);
    forall i | from <= i < |trace|
      ensures Safe(before, trace[i], hook)
    {
      OverwriteIsSafe(before, trace[i], path, copy, hook);
    }
  }

  class Disk {
    var files: FS
    var trace: seq<FS>
    ghost var faults: nat

    method Put(path: string, node: Node)
      modifies `files, `trace
      ensures files == old(files)[path := node]
      ensures trace == old(trace) + [files]
    {
      files := files[path := node];
      trace := trace + [files];
    }

    /** Other hands, or a crash: the files are these now. */
    method Become(now: FS)
      modifies `files
      ensures files == now
    {
      files := now;
    }

    method Read(path: string) returns (r: ReadResult)
      modifies `faults
      ensures old(faults) <= faults
      ensures r == ReadNode(files, path) || (r == Unreadable && old(faults) < faults)
    {
      var fails: bool := *;
      faults := if fails then faults + 1 else faults;
      r := if fails then Unreadable else ReadNode(files, path);
    }

    /** os.WriteFile on a regular or missing file: truncate, then write in pieces. */
    method WriteFile(path: string, text: string, mode: Mode) returns (ok: bool)
      requires path in files ==> !files[path].Symlink?
      modifies this
      ensures old(trace) <= trace
      ensures OnlyTouches(old(files), files, path) && AllTouch(old(files), trace, |old(trace)|, path)
      ensures ok ==> path in files && files[path].File? && files[path].content == text
      ensures path in old(files) && old(files)[path].File? && path in files ==>
        files[path].File? && files[path].mode == old(files)[path].mode
      ensures old(faults) <= faults && NewAreFiles(old(files), files)
      ensures !ok ==> old(faults) < faults || Irregular(old(files), path)
    {
      var fails: bool := *;
      if fails {
        faults := faults + 1;
        return false;
      }
      if path in files && files[path].Directory? {
        return false;
      }
      var umask: Mode := *;
      var kept := if path in files then files[path].mode else mode & umask;
      Put(path, File("", kept));
      var written := 0;
      while written < |text|
        invariant 0 <= written <= |text|
        invariant old(trace) <= trace && OnlyTouches(old(files), files, path)
        invariant AllTouch(old(files), trace, |old(trace)|, path)
        invariant path in files && files[path] == File(text[..written], kept)
        invariant faults == old(faults)
      {
        fails := *;
        if fails {
          faults := faults + 1;
          return false;
        }
        var piece: int := *;
        var upto := if 0 < piece <= |text| - written then written + piece else |text|;
        Put(path, File(text[..upto], kept));
        written := upto;
      }
      return true;
    }

    method Chmod(path: string, mode: Mode) returns (ok: bool)
      modifies this
      ensures old(trace) <= trace
      ensures files.Keys == old(files).Keys
      ensures forall n :: n in files && n != path ==> files[n] == old(files)[n]
      ensures path in files && old(files)[path].File? ==>
        files[path] == old(files)[path].(mode := if ok then mode else old(files)[path].mode)
      ensures path in files && !old(files)[path].File? ==> files[path] == old(files)[path] && !ok
      ensures ok ==> path in files
      ensures if ok then trace == old(trace) + [files] else trace == old(trace) && files == old(files)
      ensures old(faults) <= faults && NewAreFiles(old(files), files)
      ensures !ok ==> old(faults) < faults || path !in files || Irregular(files, path)
    {
      var fails: bool := *;
      if fails {
        faults := faults + 1;
        return false;
      }
      if path !in files || !files[path].File? {
        return false;
      }
      Put(path, files[path].(mode := mode));
      return true;
    }

    /** One more state of the same file. */
    method PutNext(path: string, content: string, mode: Mode, ghost before: FS, ghost from: nat)
      requires OnlyTouches(before, files, path) && AllTouch(before, trace, from, path) && NewAreFiles(before, files)
      modifies `files, `trace
      ensures files == old(files)[path := File(content, mode)] && trace == old(trace) + [files]
      ensures OnlyTouches(before, files, path) && AllTouch(before, trace, from, path) && NewAreFiles(before, files)
    {
      Put(path, File(content, mode));
    }

    /** saveReplacedHook: a new file, whose name the system completes with `suffix`. */
    method SaveReplaced(path: string, text: string, mode: Mode, suffix: string) returns (saved: Option<string>)
      modifies this
      ensures old(trace) <= trace
      ensures var name := path + ".hasp-replaced-" + suffix;
        && OnlyTouches(old(files), files, name) && AllTouch(old(files), trace, |old(trace)|, name)
        && (name in old(files) ==> files == old(files) && trace == old(trace))
      ensures saved.Some? ==>
        && saved.value == path + ".hasp-replaced-" + suffix
        && saved.value !in old(files)
        && saved.value in files && files[saved.value].File? && files[saved.value].content == text
      ensures old(faults) <= faults && NewAreFiles(old(files), files)
      ensures saved.None? ==> old(faults) < faults
    {
      var name := path + ".hasp-replaced-" + suffix;
      var fails: bool := *;
      if fails || name in files {
        faults := faults + 1;
        return None;
      }
      ghost var before, from := files, |trace|;
      assert OnlyTouches(before, files, name) && AllTouch(before, trace, from, name) && NewAreFiles(before, files);
      hide OnlyTouches, AllTouch, NewAreFiles;
      PutNext(name, "", 0x180, before, from);
      var whole: bool := *;
      var piece: int := *;
      var written := if whole then text else text[..if 0 <= piece < |text| then piece else 0];
      PutNext(name, written, 0x180, before, from);
      var chmods: bool := *;
      if chmods {
        PutNext(name, written, mode, before, from);
      }
      if !whole || !chmods {
        faults := faults + 1;
        return None;
      }
      return Some(name);
    }
  }

  /** A change of mode moves no text. */
  lemma ChmodIsSafe(before: FS, after: FS, path: string, hook: string)
    requires path == hook || path == Backup(hook)
    requires before.Keys == after.Keys
    requires forall n :: n in after && n != path ==> after[n] == before[n]
    requires path in after ==>
      if before[path].File? then after[path].File? && after[path].content == before[path].content
      else after[path] == before[path]
    ensures Safe(before, after, hook)
  {
    forall text | Holds(before, hook, text)
      ensures Holds(after, hook, text)
    {
      var n :| n in before && InFamily(n, hook) && before[n].File? && before[n].content == text;
      assert n in after && after[n].File? && after[n].content == text;
    }
  }
}
