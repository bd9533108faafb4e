# pydump traceback sanitizers, modelled in Dafny

pydump makes a live Python traceback picklable, so that a crash can be
examined later in a debugger on another machine. A traceback cannot be
pickled as it stands: its frames hold code objects, modules, functions and
arbitrary locals. A *sanitizer* (`_clean`) therefore walks the graph reachable
from the traceback and builds a substitute graph:

- mocks (`_call(_mock, dct)`) stand in for tracebacks, frames and code objects;
- containers and dicts are rebuilt;
- functions become a stub that raises `UserWarning`;
- modules become import placeholders or their `repr`;
- anything else becomes a mock of its attributes, or its `repr`.

A *snapshot* step reads the source file of every frame the traceback passes
through. A *restore* step, run when the pickle is loaded, puts those texts
into `linecache` so that the debugger can show source lines. A separate
utility, `get_traces`, cuts the tracebacks the `traceback` module prints
out of arbitrary text.

The repository holds two generations of the sanitizer, and both are
modelled:

- `keepTrace.py`: depth-bounded, memoised by `id(obj)`, and never raises. Any
  failure becomes the text `"Failed to serialize object: <err>"`.
- `pydump.py`: memoised by the object's own hash and equality. Frame
  variables are reduced to `repr` strings. Links are always cleaned with
  depth 1. Only the generic-object branch catches exceptions.

## How the model is built

- `wrappers.dfy` (`Wrappers`): `Option` and `Outcome` (a value, or the
  exception raised).
- `heap.dfy` (`Heap`): the interpreter state as an abstract heap
  `map<Id, Obj>`, where `Obj` tells tracebacks, frames, code objects,
  containers, dicts, functions, modules, classes, instances and scalars apart.
  `Env` holds the services the sanitizers call but do not implement:
  - `repr`, which may raise;
  - `os.path.abspath`;
  - the pickle trial;
  - the standard-library directory;
  - the files `open()` can read;
  - the hash/equality class of an object, or None when `hash()` raises.

  `WellFormed` states what the interpreter guarantees: links are typed, and
  `tb_next`/`f_back` point to older objects.
- `substitute.dfy` (`Substitute`): the substitute values (`Val`). It also has
  the arena of `_call` objects a run creates (`Node`, where pydump's
  `_call(None)` placeholder is `Placeholder`), and the semantics of dict
  comprehensions, `set(...)` and `dict.update` that the sanitizers rely on.
- `lines.dfy` (`Lines`): `str.splitlines`, `"\n".join` and
  `line + "\n"`, with their round-trip lemmas.
- `source_files.dfy` (`SourceFiles`): `_snapshot_source_files` as the nested
  loop it is, proved against a declarative `Collect` over the frames in
  visiting order. `restore_traceback` is a method on a `LineCache` class that
  owns `linecache.cache`. The two source files carry identical copies of both
  routines, so each is modelled once.
- `keep_trace.dfy` (`KeepTrace`): keepTrace's `_clean` as a class `Cleaner`
  whose fields are the `seen` table and the arena of mocks. Each branch is a
  method. A ghost field `made` records every `_clean` call whose body ran,
  with the depth it was given. `prepare_traceback` and the depth given to
  `co_consts` are modelled as written and corrected (see Findings); the
  rest of the model uses the corrected forms.
- `py_dump.dfy` (`PyDump`): pydump's `_clean` as a second `Cleaner`, and
  `setup`'s `_prepare_traceback`. It has the same `made` record, and the
  helpers return, as ghost results, what their nested calls returned, so
  that their contracts can state how a failure reaches the caller.
- `traces.dfy` (`Traces`): `get_traces` as its loop, proved against a
  declarative definition of the blocks it yields.

Python's recursion limit is modelled explicitly as `fuel`: a call to `_clean`
made with no fuel left raises `RecursionError` before its body runs. This is
also what stops the traversal of a container that contains itself, as it
does in Python. keepTrace catches that error in the caller's `except`;
pydump lets it propagate except in its generic branch.

Two things in pydump's generic branch are modelled as written, though they
look unintended:

- the mock claims to be a `CodeType` (pydump.py:157);
- only attributes whose names start with `"__"` are kept (pydump.py:158),
  while keepTrace keeps those that do not.

## Model

| member | source | states |
|---|---|---|
| Substitute.AddAll | keepTrace.py:171-172 | `set(gen)` holds each cleaned element once, and exactly the elements produced |
| Substitute.PutKeys | keepTrace.py:176 | storing a key into a dict adds exactly that key, and a new key goes to the end with its value |
| Substitute.PutLookup | keepTrace.py:176 | after `d[k] = v`, `d[k]` is `v` and every other key reads as before |
| Substitute.PutUnique | keepTrace.py:176 | storing never duplicates a key |
| Substitute.PutAllKeys | keepTrace.py:176 | a dict comprehension yields each key once, and exactly the keys produced |
| Substitute.PutAllLastWins | keepTrace.py:159-160 | of several pairs with equal keys, the last one decides the value |
| Substitute.UpdatedKeys | keepTrace.py:205 | `dct.update(pairs)` adds exactly the named attributes and leaves every other entry alone |
| Substitute.UpdatedLastWins | keepTrace.py:205 | in `dct.update(pairs)`, the last pair naming an attribute decides its value |
| Lines.SplitLines | keepTrace.py:64 | `splitlines()` yields lines without line breaks, and none for the empty text |
| Lines.SplitTerminated | keepTrace.py:64 | terminating every line with "\n" and splitting again gives the lines back |
| Lines.TerminatedSplit | keepTrace.py:64 | for a text whose only breaks are "\n", the restored lines concatenate to the text, with a final "\n" added when it lacked one |
| Lines.SplitJoin | utils.py:15 | joining lines with "\n" and splitting again gives them back when the last line is not empty |
| SourceFiles.ChainFrames | keepTrace.py:111-119 | the `f_back` walk visits only frames |
| SourceFiles.VisitOrderFrames | keepTrace.py:109-120 | the whole walk (`tb_next`, then each `f_back` chain) visits only frames |
| SourceFiles.CollectKeys | keepTrace.py:112-118 | the dict is keyed by exactly the absolute paths of the visited frames' files |
| SourceFiles.CollectKeeps | keepTrace.py:113 | a path already in the dict is not read again and keeps its text |
| SourceFiles.CollectFirstWins | keepTrace.py:113-118 | a path holds what reading it gave when the first frame running it was visited, or the "Couldn't locate" note |
| SourceFiles.SnapshotCovers | keepTrace.py:106-121 | the snapshot of a traceback is keyed by exactly its frames' absolute paths, each holding the text of its first read |
| SourceFiles.Snapshot | keepTrace.py:106-121 | the nested loop computes `Collect` over the frames in visiting order; no path is opened twice, and every opened path is in the result (pydump.py:71-86 is the same routine) |
| SourceFiles.SnapshotFrames | keepTrace.py:111-119 | the inner loop adds each not-yet-seen file of the `f_back` chain, opening it once |
| SourceFiles.EntryFaithful | keepTrace.py:64-65 | for a text whose only line breaks are "\n", a cache entry's lines concatenate back to the file's text (plus a final newline); for every text, its size is the text's length and its mtime None |
| SourceFiles.FormFeedSplits | keepTrace.py:64 | a form feed inside a line ends a cache line too: the entry of "x\fy\n" holds two lines where the file has one |
| SourceFiles.LineCache.Restore | keepTrace.py:61-66 | every file of the snapshot enters `linecache.cache` with its entry, other entries stay, and the trace is returned unchanged (pydump.py:62-68 is the same routine) |
| KeepTrace.FunctionsStubbed | keepTrace.py:179-189 | a function kept by the pickle trial is kept as it is; any other becomes `_stub`, and calling `_stub` with any arguments raises `UserWarning` with the stub message (keepTrace.py:124-126) |
| KeepTrace.PublicGlobals | keepTrace.py:159 | the globals kept are exactly those whose names do not start with "__" |
| KeepTrace.PublicAttrs | keepTrace.py:205 | the attributes read are exactly those whose names do not start with "__" |
| KeepTrace.Cleaner.Clean | keepTrace.py:128-211 | never raises (given stack) and records its result in `seen`; a memo hit comes first and changes nothing; depth reaching -1 gives the repr and makes no further call; a traceback, frame or code object gives the next mock, holding its repr, its type, its raw attributes and its links' recorded substitutes (a frame's public globals and locals as dicts of recorded substitutes, a code object's absolute `co_filename`), or the failure text when its repr raises or the stack runs out; a list, tuple or set gives the same kind over its elements' recorded substitutes (a set each once and nothing else); a dict gives the comprehension binding each key's recorded substitute, once, to its value's recorded substitute; then the first-match policy: pickle trial, stub, STD_TYPES, module import or repr; any other object gives the mock of its public attributes' recorded substitutes, or its repr when `dir()`/`getattr` fails; the call is recorded in `made` with its depth, and its nested calls get the depths `Fanout` lists: links the object's own depth, elements, keys, values, bindings and attributes one less, `co_consts` what `ConstsDepthUsed` gives; with a negative depth (no limit) no call below it gets a non-negative depth |
| KeepTrace.Cleaner.CleanKind | keepTrace.py:144-208 | the branch for the object's kind, in the source's order, run with the decremented depth; the nested calls it makes and their depths are those `Fanout` lists |
| KeepTrace.Cleaner.CleanTraceback | keepTrace.py:144-150 | pre-loads the mock into `seen` before cleaning `tb_frame`/`tb_next`, both with the traceback's own depth; the mock holds repr, type, raw `tb_` attributes and the links' substitutes; a raising repr gives the failure text; the pre-loaded mock closes the cycle through the frame: a frame first cleaned here becomes the next mock, and its locals bound to the traceback read the traceback's own mock |
| KeepTrace.Cleaner.CleanLinks | keepTrace.py:148-149 | `tb_frame` and then `tb_next` are cleaned with the given depth and recorded; when the frame is new and its repr succeeds, its mock's locals bound to the traceback read the traceback's recorded substitute |
| KeepTrace.FrameLocalRead | keepTrace.py:160 | in a frame mock, each local name reads the substitute of the last local bound under that name |
| KeepTrace.CycleClosed | keepTrace.py:146-160 | a frame mock built while the traceback was recorded as `v` maps every local bound to the traceback to `v` |
| KeepTrace.Cleaner.CleanBindings | keepTrace.py:159-160 | every bound value is cleaned with the given depth, and the pairs are the names with their recorded substitutes, in order |
| KeepTrace.Cleaner.CleanScopes | keepTrace.py:159-160 | the public globals and then the locals are cleaned, each value with the frame's decremented depth; each scope's pairs are its names with their recorded substitutes |
| KeepTrace.Cleaner.CleanFrame | keepTrace.py:152-161 | the frame mock holds `f_builtins` as the builtins import, `f_code`/`f_back` substitutes, the public globals and all locals cleaned, pre-loaded before any nested call; `f_code` and `f_back` are cleaned with the frame's own depth, the bound values with one less |
| KeepTrace.Cleaner.CleanCode | keepTrace.py:163-169 | the code mock holds the recorded substitute of `co_consts` and the absolute `co_filename`, pre-loaded before the nested call; `co_consts` is cleaned with the depth `ConstsDepthUsed` gives, and when that depth is 0 a new `co_consts` is replaced by its repr |
| KeepTrace.ConstsCutAsWritten | keepTrace.py:163-169 | as written, a code object reached with depth -1 (no limit) has `co_consts` cleaned with depth 0, so its mock holds the repr of `co_consts` |
| KeepTrace.Cleaner.CleanContainer | keepTrace.py:171-173 | a list, tuple or set gives the same kind over its elements' recorded substitutes, in order; each element is cleaned with one less depth |
| KeepTrace.Cleaner.CleanDict | keepTrace.py:175-177 | a dict gives the comprehension over its keys' and values' recorded substitutes; each key and value is cleaned with one less depth |
| KeepTrace.Cleaner.CleanObject | keepTrace.py:202-208 | a mock over the public attributes exactly when `dir()` and every `getattr` succeed (and there is stack), else the repr; a raising repr gives the failure text; each attribute read before the first that raises is cleaned with one less depth |
| KeepTrace.Cleaner.MockAttributes | keepTrace.py:205 | completes exactly when every attribute is readable; the dict then holds each attribute's recorded substitute; every attribute before the first unreadable one is cleaned with the given depth |
| Heap.ReadablePrefix | keepTrace.py:205 | counts the attributes `getattr` reads before the first one that raises |
| KeepTrace.PrepareAsWritten | keepTrace.py:53-58 | with source included, reducing a traceback succeeds only at depth 0 with an empty repr; without source, whenever there is stack |
| KeepTrace.Prepare | keepTrace.py:53-58 | snapshotting before cleaning, reduction succeeds whenever there is stack, and carries the snapshot of every frame's file; the substitute is the traceback's mock in arena slot 0 (holding its repr, the `TracebackType` marker and exactly the traceback's head attributes), its repr at depth 0, or the failure text when its repr raises or the stack runs out at it; with a negative depth (keepTrace.py:50, "no limit") every `_clean` call is given a negative depth, so nothing is cut to its repr |
| PyDump.ReprBindingsMeaning | pydump.py:130-131 | `{k: repr(v) ...}` succeeds exactly when every repr does and pairs each name with its value's repr; otherwise it raises what the first failing repr raised |
| PyDump.WithoutBuiltinsMembers | pydump.py:130 | only the `__builtins__` global is dropped |
| PyDump.DunderAttrs | pydump.py:158 | the attributes read are exactly those whose names start with "__" |
| PyDump.Cleaner.Clean | pydump.py:93-168 | a memo hit (by hash/equality) comes before the depth test and changes nothing; depth 0 gives the repr, stored under the object's own key only; a traceback, frame or code object is pre-loaded with a placeholder, which becomes its mock holding repr, type, raw attributes and its links' recorded substitutes (a frame's globals without `__builtins__` and its locals as repr strings, a code object's absolute `co_filename`), and an unhashable one raises; a list, tuple or set gives the same kind over its elements' recorded substitutes (a set nothing else); a dict gives the comprehension binding each key's recorded substitute, once, to its value's recorded substitute; functions give the stub; STD_TYPES are kept; others give a mock or the repr; a success is stored under the object's hash; the call is recorded in `made` with its depth, and every call below it gets the same depth or 1 |
| PyDump.Cleaner.CleanKind | pydump.py:113-166 | the branch for the object's kind in the source's order, then `seen[obj] = result`: a stub or an object kept as it is changes only the object's own entry |
| PyDump.Stored | pydump.py:163-166 | `seen[obj] = result` records a success under a hashable object's key and leaves every other entry as it was |
| PyDump.Cleaner.CleanPair | pydump.py:119-120 | two nested cleans with the given depth, the second made only when the first succeeds; a failure of the first, else of the second, is the result; on success both results are recorded |
| PyDump.Cleaner.CleanTraceback | pydump.py:115-121 | `seen` holds the placeholder before the links are cleaned; `tb_frame` and then `tb_next` are cleaned with depth 1, and the failure of either is the result, leaving the placeholder; on success the placeholder becomes the mock with repr, type and the links' substitutes |
| PyDump.Cleaner.CleanFrame | pydump.py:123-132 | as for tracebacks with `f_code` and `f_back`, both cleaned with depth 1; then `f_builtins` as the builtins import and the globals (without `__builtins__`) and locals as repr strings; the first failure among the two calls and the two comprehensions is the result |
| PyDump.Cleaner.CleanCode | pydump.py:134-140 | `co_consts` is cleaned with depth 1 and its failure is the result, leaving the placeholder; otherwise the code mock holds its recorded substitute and the absolute `co_filename` |
| PyDump.Cleaner.CleanContainer | pydump.py:142-143 | the elements are cleaned in order with the same depth up to the first failure, which is the result; success exactly when every element cleans, giving the same kind over their recorded substitutes, in order |
| PyDump.Cleaner.CleanDict | pydump.py:145-146 | the items are cleaned in order with the same depth, each value once its key cleans, up to the first failure, which is the result; success exactly when every item cleans, giving the comprehension over the cleaned keys and values |
| PyDump.Cleaner.CleanObject | pydump.py:154-161 | a mock over the dunder attributes, each bound to its recorded substitute, or the repr; the repr whenever `seen` rejects the object, `dir()` or a `getattr` raises, a nested call fails, or stack runs out; a raising repr propagates; the attributes read are cleaned with the same depth |
| PyDump.Cleaner.TryMock | pydump.py:155-161 | once the placeholder is in its slot: the mock in that slot, or the repr when the repr, `dir()`, a `getattr` or a nested call raises; the attributes read are cleaned with the same depth |
| PyDump.Cleaner.MockAttributes | pydump.py:158 | cleans the attributes in order with the same depth and stops at the first that cannot be read or whose clean fails; completes exactly when every attribute is read and cleaned, and the dict then holds each attribute's recorded substitute |
| PyDump.PrepareTraceback | pydump.py:55-58 | the snapshot is of the original traceback; on success the reduction is `(_restore_traceback, (mock, files))`; no stack, an unhashable traceback or a raising repr makes it fail; every `_clean` call it makes is given depth 1, so the "HIT MAX DEPTH" branch (pydump.py:103-105) never runs |
| Traces.EndOf | utils.py:14 | the first index at or after `i` whose line does not start with two spaces, all lines before it indented |
| Traces.SkipStep | utils.py:11-12 | with no block open, a line other than the header is discarded |
| Traces.OpenStep | utils.py:11-13 | the header opens a block |
| Traces.ExtendStep | utils.py:13-14 | an indented line extends the open block |
| Traces.CloseStep | utils.py:14-16 | a line that is not indented closes the open block, is included in it, and the buffer is emptied |
| Traces.GetTraces | utils.py:7-16 | the loop yields exactly the joined blocks of the declarative definition, in input order |
| Traces.BlocksShape | utils.py:13-15 | every block has at least two lines, begins with the header, is indented inside and ends with a non-indented line taken from the input |
| Traces.SkipPrefix | utils.py:11-12 | lines before the first header are dropped |
| Traces.OneBlock | utils.py:13-16 | a header, indented lines and a closing line form one block, and the search resumes after it |
| Traces.Unterminated | utils.py:9-16 | a header followed only by indented lines up to the end yields nothing |
| Traces.TraceRoundTrip | utils.py:15 | splitting a yielded traceback gives its block of lines back when its last line is not empty |
| Traces.ExampleSplit | tests/test_utils.py:9-26 | `splitlines()` of the test's text, which starts and ends with a newline, gives its seventeen lines, the first one empty |
| Traces.DetectTraceback | tests/test_utils.py:8-34 | `get_traces` on the test's text yields exactly the one expected traceback |

## Left out

- Pickle machinery is not modelled: `copyreg.pickle` registration, `_call.__reduce__`, `_savePickle`'s marshalled bytecode, and the `_mock` class built with `type`. A substitute names what it stands for (`Import`, `FromImport`, `Stub`, `Ref` to a mock).
- `repr`, `dir`, `getattr`, `hash`, `os.path.abspath`, the pickle trial and reading files are parameters (`Env`), not implementations.
- Printing is left out: pydump's "HIT MAX DEPTH" message and the `__main__` driver with `pdb.post_mortem`.
- `utils.normalize_trace` is not modelled, because it depends on regular-expression substitution and file-system queries.
- The Python 2 branches (`copy_reg`, `pickle.Pickler.dispatch`) are left out. STD_TYPES is a predicate on kinds: keepTrace's excludes classes, and pydump's includes them.
- The recursion limit is counted as one level per `_clean` call. Python also spends stack on the generator expressions and comprehensions inside `_clean`, so the exact depth at which `RecursionError` strikes is not modelled.
- Equality between cleaned values is structural equality of `Val`. That is the key comparison of rebuilt dicts and sets; Python would hash the substitutes, which fails for unhashable ones. The order of a rebuilt set is first-occurrence order, not Python's hash order.
- A module without `__file__` is modelled, but one whose `__file__` is None is not.
- Only `IOError` from `open()`/`read()` is modelled; a decoding error while reading a source file is not.
- Reading a `tb_`, `f_` or `co_` attribute is assumed never to raise.
- The freshness checks of `linecache` (`checkcache`) are not modelled; the entry's mtime of None is stated.
- Identity of objects is never reused during a run.
- pydump's `pickler` argument is not modelled, because `_clean` does not use it: its pickle trial is commented out.
- KeepTrace.Cleaner.Clean: for a container or dict it leaves out the entry of an element (or key or value) that is the container itself, because the container is only recorded after its elements are cleaned.
- PyDump.Cleaner.Clean: for instances and modules it states only that the result is the new mock or the repr; the mock's attributes are stated by CleanObject. For containers and dicts it leaves out the entry of an element equal to the container itself, because the final store under the container's hash replaces that entry.
- KeepTrace.Cleaner.CleanDict: a dict is cleaned key first, then value, which is the order of dict comprehensions from Python 3.8 on. Python 3.6 and 3.7 evaluate the value first, which changes what is memoised first. Take `d = {a: [a]}` for an instance `a`, cleaned with depth 2. From 3.8 on, the key `a` is cleaned first, with depth 1, into a mock. Under 3.6 and 3.7, `[a]` is cleaned first, which records `a` at depth 0 as its repr, and the key then reads that repr from the memo.
- PyDump.Cleaner.CleanDict: the same key-first order (Python 3.8 and later) is modelled. Under Python 3.6 and 3.7 a value that fails would raise before its key is cleaned.
- SourceFiles.EntryFaithful: holds only for texts whose only line breaks are "\n". `splitlines` also breaks at "\r", "\v", "\f", 0x1C to 0x1E, 0x85, U+2028 and U+2029, so the entry of a file holding one of these inside a line has more lines than the file (SourceFiles.FormFeedSplits), and the debugger shows later lines shifted.

## Findings

| source | as written | input that shows it | evidently intended | confidence | as-written member | corrected member |
|---|---|---|---|---|---|---|
| keepTrace.py:167 | `co_consts` is cleaned with `depth+2`, `depth` already decremented | `init(depth=-1)`, the "no limit" setting (keepTrace.py:50-51) that tests/test_pickle.py:39-44 uses: the traceback, its frame and its code object are each cleaned with -1, so `co_consts` gets -2 + 2 = 0 and is replaced by its repr | a negative depth stays negative, so `co_consts` is cleaned in full | not executed | KeepTrace.ConstsCutAsWritten | KeepTrace.Prepare |
| keepTrace.py:53-58 | `prepare_traceback` snapshots the source files of the value `_clean` returned | any traceback with `include_source=True` and a depth other than 0: `_clean` returns a `_call` mock (or a non-empty str), which has no `tb_frame`, so the walk raises `AttributeError` and the traceback cannot be pickled | snapshot the original traceback before cleaning it, as pydump.py:55-58 does | not executed | KeepTrace.PrepareAsWritten | KeepTrace.Prepare |
