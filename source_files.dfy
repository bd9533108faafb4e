/** `_snapshot_source_files` and `_restore_traceback`: the source text of
    every file a traceback passes through is read at dump time, carried in
    the pickle, and placed in `linecache` when the pickle is loaded, so that a
    debugger can show source lines on a machine that lacks the files. */
module SourceFiles {
  import opened Wrappers
  import opened Heap
  import opened Lines

  /** A frame whose code object is in the heap. */
  ghost predicate IsFrame(heap: map<Id, Obj>, frame: Id) {
    frame in heap && heap[frame].Frame? && heap[frame].code in heap && heap[heap[frame].code].Code?
  }

  ghost predicate AllFrames(heap: map<Id, Obj>, frames: seq<Id>) {
    forall i :: 0 <= i < |frames| ==> IsFrame(heap, frames[i])
  }

  /** The frames reached from `frame` by following `f_back` until None. */
  function FrameChain(heap: map<Id, Obj>, frame: Id): seq<Id>
    requires WellFormed(heap) && frame in heap && (heap[frame].Frame? || heap[frame].NoneObj?)
    decreases frame
  {
    if heap[frame].NoneObj? then []
    else
      assert Sound(heap, frame);
      [frame] + FrameChain(heap, heap[frame].back)
  }

  /** The frames the snapshot walks, in order: for each traceback entry along
      `tb_next`, the whole `f_back` chain of its frame. */
  function VisitOrder(heap: map<Id, Obj>, trace: Id): seq<Id>
    requires WellFormed(heap) && trace in heap && (heap[trace].Traceback? || heap[trace].NoneObj?)
    decreases trace
  {
    if heap[trace].NoneObj? then []
    else
      assert Sound(heap, trace);
      FrameChain(heap, heap[trace].frame) + VisitOrder(heap, heap[trace].next)
  }

  /** `co_filename` of the frame's code object. */
  function FileName(heap: map<Id, Obj>, frame: Id): string
    requires IsFrame(heap, frame)
  {
    heap[heap[frame].code].filename
  }

  /** The text `open(abspath).read()` gives, or the note recorded when the
      file cannot be opened; the note names the file as the code object does. */
  function ReadSource(env: Env, filename: string): string {
    var path := env.abspath(filename);
    if path in env.disk then env.disk[path] else "Couldn't locate '" + filename + "' during dump."
  }

  /** One step of the walk: a file already in `files` is not read again.
      (Every id the walk reaches is a frame; any other id is passed over.) */
  function Visit(env: Env, heap: map<Id, Obj>, files: map<string, string>, frame: Id): map<string, string> {
    if frame in heap && heap[frame].Frame? && heap[frame].code in heap && heap[heap[frame].code].Code? then
      var name := heap[heap[frame].code].filename;
      var path := env.abspath(name);
      if path in files then files else files[path := ReadSource(env, name)]
    else files
  }

  /** The dict after visiting `frames` in order, starting from `files`. */
  function Collect(env: Env, heap: map<Id, Obj>, files: map<string, string>, frames: seq<Id>): map<string, string>
    decreases |frames|
  {
    if frames == [] then files else Collect(env, heap, Visit(env, heap, files, frames[0]), frames[1..])
  }

  /** The walk visits only frames. */
  lemma {:induction false} ChainFrames(heap: map<Id, Obj>, frame: Id)
    requires WellFormed(heap) && frame in heap && (heap[frame].Frame? || heap[frame].NoneObj?)
    ensures AllFrames(heap, FrameChain(heap, frame))
    decreases frame
  {
    if heap[frame].Frame? {
      assert Sound(heap, frame);
      ChainFrames(heap, heap[frame].back);
    }
  }

  lemma {:induction false} VisitOrderFrames(heap: map<Id, Obj>, trace: Id)
    requires WellFormed(heap) && trace in heap && (heap[trace].Traceback? || heap[trace].NoneObj?)
    ensures AllFrames(heap, VisitOrder(heap, trace))
    decreases trace
  {
    if heap[trace].Traceback? {
      assert Sound(heap, trace);
      ChainFrames(heap, heap[trace].frame);
      VisitOrderFrames(heap, heap[trace].next);
    }
  }

  lemma {:induction false} CollectAppend(env: Env, heap: map<Id, Obj>, files: map<string, string>, a: seq<Id>, b: seq<Id>)
    ensures Collect(env, heap, files, a + b) == Collect(env, heap, Collect(env, heap, files, a), b)
    decreases |a|
  {
    if a == [] {
      assert a + b == b;
    } else {
      assert (a + b)[1..] == a[1..] + b;
      CollectAppend(env, heap, Visit(env, heap, files, a[0]), a[1..], b);
    }
  }

  /** The snapshot holds one entry per distinct absolute path of the visited
      frames' files, and nothing else. */
  lemma {:induction false} CollectKeys(env: Env, heap: map<Id, Obj>, files: map<string, string>, frames: seq<Id>)
    requires AllFrames(heap, frames)
    ensures Collect(env, heap, files, frames).Keys
         == files.Keys + set i | 0 <= i < |frames| :: env.abspath(FileName(heap, frames[i]))
    decreases |frames|
  {
    if frames != [] {
      CollectKeys(env, heap, Visit(env, heap, files, frames[0]), frames[1..]);
      var paths := set i | 0 <= i < |frames| :: env.abspath(FileName(heap, frames[i]));
      var tail := set i | 0 <= i < |frames[1..]| :: env.abspath(FileName(heap, frames[1..][i]));
      assert paths == {env.abspath(FileName(heap, frames[0]))} + tail by {
        forall p | p in paths ensures p in {env.abspath(FileName(heap, frames[0]))} + tail {
          var i :| 0 <= i < |frames| && p == env.abspath(FileName(heap, frames[i]));
          if i > 0 { assert frames[1..][i - 1] == frames[i]; }
        }
        forall p | p in tail ensures p in paths {
          var i :| 0 <= i < |frames[1..]| && p == env.abspath(FileName(heap, frames[1..][i]));
          assert frames[1..][i] == frames[i + 1];
        }
      }
    }
  }

  /** An entry present before the walk keeps its text. */
  lemma {:induction false} CollectKeeps(env: Env, heap: map<Id, Obj>, files: map<string, string>, frames: seq<Id>, path: string)
    requires path in files
    ensures path in Collect(env, heap, files, frames) && Collect(env, heap, files, frames)[path] == files[path]
    decreases |frames|
  {
    if frames != [] {
      CollectKeeps(env, heap, Visit(env, heap, files, frames[0]), frames[1..], path);
    }
  }

  /** A path is read when the first frame running code from it is visited:
      the text comes from that frame's `co_filename`. */
  lemma {:induction false} CollectFirstWins(env: Env, heap: map<Id, Obj>, files: map<string, string>, frames: seq<Id>, i: nat)
    requires AllFrames(heap, frames) && i < |frames|
    requires env.abspath(FileName(heap, frames[i])) !in files
    requires forall j :: 0 <= j < i ==> env.abspath(FileName(heap, frames[j])) != env.abspath(FileName(heap, frames[i]))
    ensures var path := env.abspath(FileName(heap, frames[i]));
      path in Collect(env, heap, files, frames) &&
      Collect(env, heap, files, frames)[path] == ReadSource(env, FileName(heap, frames[i]))
    decreases |frames|
  {
    var next := Visit(env, heap, files, frames[0]);
    if i == 0 {
      CollectKeeps(env, heap, next, frames[1..], env.abspath(FileName(heap, frames[0])));
    } else {
      assert frames[1..][i - 1] == frames[i];
      CollectFirstWins(env, heap, next, frames[1..], i - 1);
    }
  }

  /** The snapshot of a traceback is keyed by exactly the absolute paths of
      the files its frames run, and each path holds what reading it gave when
      the walk first reached it. */
  lemma SnapshotCovers(env: Env, heap: map<Id, Obj>, trace: Id)
    requires WellFormed(heap) && trace in heap && (heap[trace].Traceback? || heap[trace].NoneObj?)
    ensures var frames, files := VisitOrder(heap, trace), Collect(env, heap, map[], VisitOrder(heap, trace));
      && AllFrames(heap, frames)
      && files.Keys == (set i | 0 <= i < |frames| :: env.abspath(FileName(heap, frames[i])))
      && forall i :: 0 <= i < |frames| && (forall j :: 0 <= j < i ==>
                       env.abspath(FileName(heap, frames[j])) != env.abspath(FileName(heap, frames[i]))) ==>
           files[env.abspath(FileName(heap, frames[i]))] == ReadSource(env, FileName(heap, frames[i]))
  {
    var frames := VisitOrder(heap, trace);
    VisitOrderFrames(heap, trace);
    CollectKeys(env, heap, map[], frames);
    forall i | 0 <= i < |frames| && (forall j :: 0 <= j < i ==>
                 env.abspath(FileName(heap, frames[j])) != env.abspath(FileName(heap, frames[i])))
      ensures Collect(env, heap, map[], frames)[env.abspath(FileName(heap, frames[i]))] == ReadSource(env, FileName(heap, frames[i]))
    {
      CollectFirstWins(env, heap, map[], frames, i);
    }
  }

  /** `_snapshot_source_files(trace)`. `openedPaths` lists the paths opened, in order. */
  method Snapshot(heap: map<Id, Obj>, env: Env, trace: Id) returns (files: map<string, string>, ghost openedPaths: seq<string>)
    requires WellFormed(heap) && trace in heap && (heap[trace].Traceback? || heap[trace].NoneObj?)
    ensures files == Collect(env, heap, map[], VisitOrder(heap, trace))
    // no file is opened twice, and every file in the snapshot was opened
    ensures forall i, j :: 0 <= i < j < |openedPaths| ==> openedPaths[i] != openedPaths[j]
    ensures forall p :: p in files <==> p in openedPaths
  {
    files, openedPaths := map[], [];
    var t := trace;
    while !heap[t].NoneObj?
      invariant t in heap && (heap[t].Traceback? || heap[t].NoneObj?)
      invariant Collect(env, heap, files, VisitOrder(heap, t)) == Collect(env, heap, map[], VisitOrder(heap, trace))
      invariant forall i, j :: 0 <= i < j < |openedPaths| ==> openedPaths[i] != openedPaths[j]
      invariant forall p :: p in files <==> p in openedPaths
      decreases t
    {
      assert Sound(heap, t);
      CollectAppend(env, heap, files, FrameChain(heap, heap[t].frame), VisitOrder(heap, heap[t].next));
      files, openedPaths := SnapshotFrames(heap, env, heap[t].frame, files, openedPaths);
      t := heap[t].next;
    }
  }

  /** The inner loop of `_snapshot_source_files`: the `f_back` chain from
      `frame`, adding each file not yet in `files`. */
  method SnapshotFrames(heap: map<Id, Obj>, env: Env, frame: Id, files: map<string, string>, ghost openedPaths: seq<string>)
    returns (files': map<string, string>, ghost openedPaths': seq<string>)
    requires WellFormed(heap) && frame in heap && (heap[frame].Frame? || heap[frame].NoneObj?)
    requires forall i, j :: 0 <= i < j < |openedPaths| ==> openedPaths[i] != openedPaths[j]
    requires forall p :: p in files <==> p in openedPaths
    ensures files' == Collect(env, heap, files, FrameChain(heap, frame))
    ensures forall i, j :: 0 <= i < j < |openedPaths'| ==> openedPaths'[i] != openedPaths'[j]
    ensures forall p :: p in files' <==> p in openedPaths'
  {
    files', openedPaths' := files, openedPaths;
    var f := frame;
    while !heap[f].NoneObj?
      invariant f in heap && (heap[f].Frame? || heap[f].NoneObj?)
      invariant Collect(env, heap, files', FrameChain(heap, f)) == Collect(env, heap, files, FrameChain(heap, frame))
      invariant forall i, j :: 0 <= i < j < |openedPaths'| ==> openedPaths'[i] != openedPaths'[j]
      invariant forall p :: p in files' <==> p in openedPaths'
      decreases f
    {
      assert Sound(heap, f);
      var chain := FrameChain(heap, f);
      assert chain[0] == f && chain[1..] == FrameChain(heap, heap[f].back);
      ghost var before := files';
      var name := heap[heap[f].code].filename;
      var filename := env.abspath(name);
      if filename !in files' {
        assert filename !in openedPaths';
        openedPaths' := openedPaths' + [filename];
        if filename in env.disk {
          files' := files'[filename := env.disk[filename]];
        } else {
          // open() raised IOError
          files' := files'[filename := "Couldn't locate '" + name + "' during dump."];
        }
        assert files' == before[filename := ReadSource(env, name)];
      }
      f := heap[f].back;
    }
  }

  /** One `linecache.cache` entry: (size, mtime, lines, fullname). An mtime
      of None marks the entry as one `checkcache` never invalidates. */
  datatype CacheEntry = CacheEntry(size: nat, mtime: Option<int>, lines: seq<string>, fullname: string)

  /** The entry `_restore_traceback` stores for a file of the snapshot. */
  function EntryOf(name: string, data: string): CacheEntry {
    CacheEntry(|data|, None, WithNewlines(SplitLines(data)), name)
  }

  /** A debugger reading the entry's lines gets the file's text back, with a
      final newline added when the file lacked one, and the entry is never
      invalidated. */
  lemma EntryFaithful(name: string, data: string)
    requires OnlyNewlines(data)
    ensures Concat(EntryOf(name, data).lines) == Newlined(data)
    ensures EntryOf(name, data).size == |data| && EntryOf(name, data).mtime.None?
  {
    TerminatedSplit(data);
  }

  /** Other breaks than "\n" end cache lines too: a form feed inside a line
      splits it in two, so every later line of the entry is off by one
      against the file. */
  lemma FormFeedSplits()
    ensures EntryOf("f.py", "x\U{0C}y\n").lines == ["x\n", "y\n"]
  {
    var data := "x\U{0C}y\n";
    assert FirstBreak(data) == 1;
    assert data[..1] == "x" && data[2..] == "y\n";
    assert "y" + "\n" + "" == "y\n";
    SplitLinesCons("y", "");
    assert SplitLines(data) == ["x"] + SplitLines("y\n");
    assert SplitLines(data) == ["x", "y"];
    assert "x" + "\n" == "x\n" && "y" + "\n" == "y\n";
    assert WithNewlines(["x", "y"]) == ["x\n", "y\n"];
    assert EntryOf("f.py", data).lines == WithNewlines(SplitLines(data));
  }

  /** `linecache.cache`, the process-wide table of source lines. */
  class LineCache {
    var cache: map<string, CacheEntry>

    constructor ()
      ensures cache == map[]
    {
      cache := map[];
    }

    /** `_restore_traceback(trace, files)`: every file of the snapshot enters
        the cache (replacing any entry of the same name), other entries stay,
        and the traceback comes back unchanged. */
    method Restore<T>(trace: T, files: map<string, string>) returns (r: T)
      modifies this
      ensures r == trace
      ensures cache.Keys == old(cache).Keys + files.Keys
      ensures forall name :: name in files ==> cache[name] == EntryOf(name, files[name])
      ensures forall name :: name in old(cache) && name !in files ==> cache[name] == old(cache)[name]
    {
      var todo := files.Keys;
      while todo != {}
        invariant todo <= files.Keys
        invariant cache.Keys == old(cache).Keys + (files.Keys - todo)
        invariant forall name :: name in files && name !in todo ==> cache[name] == EntryOf(name, files[name])
        invariant forall name :: name in old(cache) && name !in files ==> cache[name] == old(cache)[name]
        decreases todo
      {
        var name :| name in todo;
        var data := files[name];
        var lines := WithNewlines(SplitLines(data));
        cache := cache[name := CacheEntry(|data|, None, lines, name)];
        todo := todo - {name};
      }
      return trace;
    }
  }
}
