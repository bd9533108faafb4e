/** pydump.py: the first sanitizer. Substitutes are memoised by the object
    itself (its hash and equality), so equal hashable objects share one
    substitute and unhashable ones are never memoised. The links of a
    traceback, frame or code object are always cleaned with depth 1, and a
    failure there, or inside a container, reaches the caller. */
module PyDump {
  import opened Wrappers
  import opened Heap
  import opened Substitute
  import opened SourceFiles

  const StubMessage := "This is a stub function. The original could not be serialized."
  /** `str()` of the TypeError `seen[obj]` raises for an unhashable key (the
      interpreter appends the type's name, which the model does not carry). */
  const UnhashableMessage := "unhashable type"

  /** STD_TYPES as pydump computes it: every type the pickler dispatches
      except those saved by `save_global`, so classes (saved by `save_type`)
      are kept as they are. */
  predicate IsStd(o: Obj) {
    o.NoneObj? || o.Scalar? || o.Class?
  }

  /** The memo table already holds an entry equal to `obj`. */
  ghost predicate Memoised(env: Env, seen: map<nat, Val>, obj: Id) {
    env.hashKey(obj).Some? && env.hashKey(obj).value in seen
  }

  /** `seen[obj]` reads `v`, unless `obj` is unhashable and cannot be stored. */
  ghost predicate Recorded(env: Env, seen: map<nat, Val>, obj: Id, v: Val) {
    env.hashKey(obj).Some? ==> env.hashKey(obj).value in seen && seen[env.hashKey(obj).value] == v
  }

  lemma RecordedStable(env: Env, s1: map<nat, Val>, s2: map<nat, Val>, obj: Id, v: Val)
    requires Recorded(env, s1, obj, v) && Extends(s1, s2)
    ensures Recorded(env, s2, obj, v)
  {
  }

  /** `repr(obj)` as a substitute, or what it raised. */
  function ReprOf(env: Env, obj: Id): Outcome<Val> {
    match env.repr(obj)
    case Ok(s) => Ok(Text(s))
    case Raised(e) => Raised(e)
  }

  /** `{k: repr(v) for k, v in bindings}`: the pairs in order, or what the
      first failing repr raised. */
  function ReprBindings(env: Env, bs: seq<(string, Id)>): Outcome<seq<(Val, Val)>> {
    if bs == [] then Ok([])
    else
      match env.repr(bs[0].1)
      case Raised(e) => Raised(e)
      case Ok(s) =>
        var rest := ReprBindings(env, bs[1..]);
        if rest.Raised? then rest else Ok([(Text(bs[0].0), Text(s))] + rest.value)
  }

  /** `bs[i]` holds the first value whose repr raises. */
  ghost predicate FirstFailure(env: Env, bs: seq<(string, Id)>, i: nat)
    requires i < |bs|
  {
    env.repr(bs[i].1).Raised? && forall j :: 0 <= j < i ==> env.repr(bs[j].1).Ok?
  }

  /** The comprehension succeeds exactly when every repr does, pairs each name
      with the repr of its value, and otherwise raises what the first failing
      repr raised. */
  lemma {:induction false} ReprBindingsMeaning(env: Env, bs: seq<(string, Id)>)
    ensures var r := ReprBindings(env, bs);
      && (r.Ok? <==> forall i :: 0 <= i < |bs| ==> env.repr(bs[i].1).Ok?)
      && (r.Ok? ==> |r.value| == |bs|)
      && (r.Ok? ==> forall i :: 0 <= i < |bs| ==> r.value[i] == (Text(bs[i].0), Text(env.repr(bs[i].1).value)))
      && (r.Raised? ==> exists i :: 0 <= i < |bs| && FirstFailure(env, bs, i) && env.repr(bs[i].1) == Raised(r.error))
  {
    if bs != [] && env.repr(bs[0].1).Ok? {
      ReprBindingsMeaning(env, bs[1..]);
      assert forall i :: 0 < i < |bs| ==> bs[i] == bs[1..][i - 1];
      var rest := ReprBindings(env, bs[1..]);
      if rest.Raised? {
        var i :| 0 <= i < |bs[1..]| && FirstFailure(env, bs[1..], i) && env.repr(bs[1..][i].1) == Raised(rest.error);
        assert FirstFailure(env, bs, i + 1);
      }
    }
  }

  /** The frame's global bindings other than `__builtins__`, in order. */
  function WithoutBuiltins(bs: seq<(string, Id)>): seq<(string, Id)> {
    if bs == [] then []
    else if bs[0].0 == "__builtins__" then WithoutBuiltins(bs[1..])
    else [bs[0]] + WithoutBuiltins(bs[1..])
  }

  /** Only the `__builtins__` entry is dropped. */
  lemma {:induction false} WithoutBuiltinsMembers(bs: seq<(string, Id)>)
    ensures forall b :: b in WithoutBuiltins(bs) <==> b in bs && b.0 != "__builtins__"
  {
    if bs != [] {
      WithoutBuiltinsMembers(bs[1..]);
      assert forall b :: b in bs <==> b == bs[0] || b in bs[1..];
    }
  }

  /** The attributes `dir()` lists whose names start with "__". */
  function DunderAttrs(attrs: seq<Attr>): (r: seq<Attr>)
    ensures forall a :: a in r <==> a in attrs && StartsWith(a.name, "__")
  {
    if attrs == [] then []
    else
      var n := |attrs| - 1;
      assert forall a :: a in attrs <==> a in attrs[..n] || a == attrs[n];
      if StartsWith(attrs[n].name, "__") then DunderAttrs(attrs[..n]) + [attrs[n]] else DunderAttrs(attrs[..n])
  }

  /** The mock's dict once the raw `tb_` attributes, the repr and the type it
      mimics are in. */
  function TracebackHead(s: string, o: Obj): map<string, Val>
    requires o.Traceback?
  {
    Raw(o.attrs, "tb_") + map["tb_frame" := Same(o.frame), "tb_next" := Same(o.next)]
      + map["repr" := Text(s), "mock" := FromImport("types", "TracebackType")]
  }

  function FrameHead(s: string, o: Obj): map<string, Val>
    requires o.Frame?
  {
    Raw(o.attrs, "f_") + map["f_code" := Same(o.code), "f_back" := Same(o.back)]
      + map["f_builtins" := FromImport("types", "__builtins__")]
      + map["repr" := Text(s), "mock" := FromImport("types", "FrameType")]
  }

  function CodeHead(s: string, o: Obj): map<string, Val>
    requires o.Code?
  {
    Raw(o.attrs, "co_") + map["co_consts" := Same(o.consts), "co_filename" := Text(o.filename)]
      + map["repr" := Text(s), "mock" := FromImport("types", "CodeType")]
  }

  /** The generic mock claims to be a code object, as pydump.py:157 has it. */
  function ObjectHead(s: string): map<string, Val> {
    map["repr" := Text(s), "mock" := FromImport("types", "CodeType")]
  }

  /** A `_call` mock that reprs as `s` and pretends to be `t`. */
  ghost predicate MockOf(n: Node, s: string, t: Val) {
    n.Mock? && "repr" in n.fields && n.fields["repr"] == Text(s) && "mock" in n.fields && n.fields["mock"] == t
  }

  /** The type a traceback, frame or code object's mock pretends to be. */
  function MockType(o: Obj): Val
    requires IsStructural(o)
  {
    if o.Traceback? then FromImport("types", "TracebackType")
    else if o.Frame? then FromImport("types", "FrameType")
    else FromImport("types", "CodeType")
  }

  /** The mock `n` of a traceback, frame or code object `o` whose repr is `s`:
      its links hold their recorded substitutes (cleaned with depth 1), a
      frame's f_globals (without `__builtins__`) and f_locals map each name to
      the repr of its value, and a code object's co_filename is absolute. */
  ghost predicate LinksMocked(env: Env, o: Obj, s: string, n: Node, seen: map<nat, Val>)
    requires IsStructural(o)
  {
    n.Mock? &&
    match o
    case Traceback(frame, next, _) =>
      "tb_frame" in n.fields && "tb_next" in n.fields &&
      Recorded(env, seen, frame, n.fields["tb_frame"]) && Recorded(env, seen, next, n.fields["tb_next"]) &&
      n.fields == TracebackHead(s, o)["tb_frame" := n.fields["tb_frame"]]["tb_next" := n.fields["tb_next"]]
    case Frame(code, back, globals, locals, _) =>
      var g := ReprBindings(env, WithoutBuiltins(globals));
      var l := ReprBindings(env, locals);
      "f_code" in n.fields && "f_back" in n.fields && g.Ok? && l.Ok? &&
      Recorded(env, seen, code, n.fields["f_code"]) && Recorded(env, seen, back, n.fields["f_back"]) &&
      n.fields == FrameHead(s, o)["f_code" := n.fields["f_code"]]["f_back" := n.fields["f_back"]]
                                 ["f_globals" := Mapping(PutAll(g.value))]["f_locals" := Mapping(PutAll(l.value))]
    case Code(filename, consts, _) =>
      "co_consts" in n.fields && Recorded(env, seen, consts, n.fields["co_consts"]) &&
      n.fields == CodeHead(s, o)["co_consts" := n.fields["co_consts"]]["co_filename" := Text(env.abspath(filename))]
  }

  /** The outcome of building the mock of the structural object `obj` (that
      is, `o`) in slot `k`: the placeholder stays when the repr fails, the
      recursion limit is hit or a nested call fails; otherwise slot `k` holds
      the mock and the result refers to it. */
  ghost predicate MockBuilt(env: Env, obj: Id, o: Obj, fuel: nat, k: nat, r: Outcome<Val>, seen: map<nat, Val>, nodes: seq<Node>)
    requires IsStructural(o)
  {
    k < |nodes| &&
    (env.repr(obj).Raised? || fuel == 1 ==> r.Raised?) &&
    (r.Raised? ==> nodes[k] == Placeholder) &&
    (r.Ok? ==> env.repr(obj).Ok? && r.value == Ref(k) && MockOf(nodes[k], env.repr(obj).value, MockType(o)) &&
               LinksMocked(env, o, env.repr(obj).value, nodes[k], seen))
  }

  /** The mocks the helpers build are what `MockBuilt` describes. */
  lemma TracebackMockBuilt(env: Env, obj: Id, o: Obj, fuel: nat, k: nat, fv: Val, nv: Val,
                           seen: map<nat, Val>, nodes: seq<Node>)
    requires o.Traceback? && fuel > 1 && env.repr(obj).Ok? && k < |nodes|
    requires Recorded(env, seen, o.frame, fv) && Recorded(env, seen, o.next, nv)
    requires nodes[k] == Mock(TracebackHead(env.repr(obj).value, o)["tb_frame" := fv]["tb_next" := nv])
    ensures MockBuilt(env, obj, o, fuel, k, Ok(Ref(k)), seen, nodes)
  {
    var m := nodes[k].fields;
    assert m["tb_frame"] == fv && m["tb_next"] == nv;
    assert m["repr"] == Text(env.repr(obj).value) && m["mock"] == MockType(o);
  }

  lemma FrameMockBuilt(env: Env, obj: Id, o: Obj, fuel: nat, k: nat, cv: Val, bv: Val,
                       seen: map<nat, Val>, nodes: seq<Node>)
    requires o.Frame? && fuel > 1 && env.repr(obj).Ok? && k < |nodes|
    requires Recorded(env, seen, o.code, cv) && Recorded(env, seen, o.back, bv)
    requires ReprBindings(env, WithoutBuiltins(o.globals)).Ok? && ReprBindings(env, o.locals).Ok?
    requires nodes[k] == Mock(FrameHead(env.repr(obj).value, o)["f_code" := cv]["f_back" := bv]
                              ["f_globals" := Mapping(PutAll(ReprBindings(env, WithoutBuiltins(o.globals)).value))]
                              ["f_locals" := Mapping(PutAll(ReprBindings(env, o.locals).value))])
    ensures MockBuilt(env, obj, o, fuel, k, Ok(Ref(k)), seen, nodes)
  {
    var m := nodes[k].fields;
    assert m["f_code"] == cv && m["f_back"] == bv;
    assert m["repr"] == Text(env.repr(obj).value) && m["mock"] == MockType(o);
  }

  lemma CodeMockBuilt(env: Env, obj: Id, o: Obj, fuel: nat, k: nat, cv: Val, seen: map<nat, Val>, nodes: seq<Node>)
    requires o.Code? && fuel > 1 && env.repr(obj).Ok? && k < |nodes| && Recorded(env, seen, o.consts, cv)
    requires nodes[k] == Mock(CodeHead(env.repr(obj).value, o)["co_consts" := cv]["co_filename" := Text(env.abspath(o.filename))])
    ensures MockBuilt(env, obj, o, fuel, k, Ok(Ref(k)), seen, nodes)
  {
    var m := nodes[k].fields;
    assert m["co_consts"] == cv;
    assert m["repr"] == Text(env.repr(obj).value) && m["mock"] == MockType(o);
  }

  /** `x` is not equal to the hashable object `obj`, whose own entry in
      `seen` is written last and would replace the one `x` was given. */
  predicate Unequal(env: Env, x: Id, obj: Id) {
    env.hashKey(obj).None? || env.hashKey(x) != env.hashKey(obj)
  }

  /** A list, tuple or set `obj` cleaned without failure: a container of the
      same kind; a list or tuple holds each element's substitute at the
      element's position, a set each hashable element's recorded substitute
      and nothing but the elements' substitutes. */
  ghost predicate ContainerCleaned(env: Env, obj: Id, o: Obj, v: Val, seen: map<nat, Val>)
    requires o.Container?
  {
    v.Collection? && v.kind == o.kind &&
    (o.kind != SetKind ==>
      |v.elems| == |o.elems| &&
      forall j :: 0 <= j < |o.elems| && Unequal(env, o.elems[j], obj) ==> Recorded(env, seen, o.elems[j], v.elems[j])) &&
    (o.kind == SetKind ==>
      NoDuplicates(v.elems) &&
      (forall j :: 0 <= j < |o.elems| && env.hashKey(o.elems[j]).Some? && Unequal(env, o.elems[j], obj) ==>
        env.hashKey(o.elems[j]).value in seen && seen[env.hashKey(o.elems[j]).value] in v.elems) &&
      exists vals: seq<Val> :: v.elems == AddAll(vals) && |vals| == |o.elems| &&
        forall j :: 0 <= j < |o.elems| && Unequal(env, o.elems[j], obj) ==> Recorded(env, seen, o.elems[j], vals[j]))
  }

  /** A dict `obj` cleaned without failure: the comprehension over the
      substitutes, each key once, binding the recorded substitute of every
      hashable key to the recorded substitute of its value. */
  ghost predicate DictCleaned(env: Env, obj: Id, o: Obj, v: Val, seen: map<nat, Val>)
    requires o.Dict?
  {
    v.Mapping? && UniqueKeys(v.items) &&
    (forall j :: 0 <= j < |o.items| && env.hashKey(o.items[j].0).Some? && Unequal(env, o.items[j].0, obj) ==>
      env.hashKey(o.items[j].0).value in seen && seen[env.hashKey(o.items[j].0).value] in Keys(v.items)) &&
    exists pairs: seq<(Val, Val)> :: v == Mapping(PutAll(pairs)) && |pairs| == |o.items| &&
      forall j :: 0 <= j < |o.items| ==>
        (Unequal(env, o.items[j].0, obj) ==> Recorded(env, seen, o.items[j].0, pairs[j].0)) &&
        (Unequal(env, o.items[j].1, obj) ==> Recorded(env, seen, o.items[j].1, pairs[j].1))
  }

  /** Storing the container's own substitute leaves its elements' entries alone. */
  lemma ContainerCleanedStore(env: Env, obj: Id, o: Obj, v: Val, seen: map<nat, Val>, w: Val)
    requires o.Container? && ContainerCleaned(env, obj, o, v, seen) && env.hashKey(obj).Some?
    ensures ContainerCleaned(env, obj, o, v, seen[env.hashKey(obj).value := w])
  {
  }

  lemma DictCleanedStore(env: Env, obj: Id, o: Obj, v: Val, seen: map<nat, Val>, w: Val)
    requires o.Dict? && DictCleaned(env, obj, o, v, seen) && env.hashKey(obj).Some?
    ensures DictCleaned(env, obj, o, v, seen[env.hashKey(obj).value := w])
  {
  }

  /** `seen[obj] = result` when it succeeds: `seen` with the result stored
      under the object's key, or unchanged for an unhashable object or a
      failure. */
  function Stored(env: Env, seen: map<nat, Val>, obj: Id, r: Outcome<Val>): (s: map<nat, Val>)
    ensures r.Ok? ==> Recorded(env, s, obj, r.value)
    // no other entry is added or changed
    ensures forall x :: x in s && Some(x) != env.hashKey(obj) ==> x in seen && s[x] == seen[x]
    ensures forall x :: x in seen && Some(x) != env.hashKey(obj) ==> x in s && s[x] == seen[x]
  {
    if r.Ok? && env.hashKey(obj).Some? then seen[env.hashKey(obj).value := r.value] else seen
  }

  /** What `_clean` does with an object that is not memoised, at a non-zero
      depth, by kind in the source's order; `k` is the next arena slot. */
  ghost predicate KindCleaned(env: Env, obj: Id, o: Obj, fuel: nat, k: nat, r: Outcome<Val>,
                              seen0: map<nat, Val>, seen: map<nat, Val>, nodes: seq<Node>)
  {
    if IsStructural(o) then
      if env.hashKey(obj).None? then
        // an unhashable traceback, frame or code object cannot be pre-loaded
        r == Raised(UnhashableMessage) && seen == seen0 && |nodes| == k
      else
        // pre-loaded with a placeholder, which stays when building the mock fails
        MockBuilt(env, obj, o, fuel, k, r, seen, nodes)
    else if o.Container? then
      (fuel == 1 && o.elems != [] ==> r == Raised(RecursionMessage)) &&
      (r.Ok? ==> ContainerCleaned(env, obj, o, r.value, seen))
    else if o.Dict? then
      (fuel == 1 && o.items != [] ==> r == Raised(RecursionMessage)) &&
      (r.Ok? ==> DictCleaned(env, obj, o, r.value, seen))
    else if o.Function? then
      r == Ok(Stub(StubMessage)) && |nodes| == k && seen == Stored(env, seen0, obj, r)
    else if IsStd(o) then
      r == Ok(Same(obj)) && |nodes| == k && seen == Stored(env, seen0, obj, r)
    else
      // a module or an instance: a mock, or its repr when building the mock fails
      (env.repr(obj).Raised? ==> r == Raised(env.repr(obj).error)) &&
      (env.repr(obj).Ok? ==> r == Ok(Text(env.repr(obj).value)) || r == Ok(Ref(k)))
  }

  /** Every `_clean` call in `after` and not in `before` was given `depth`
      or 1: a container, a dict or a generic mock passes its own depth on, a
      link or co_consts is always given 1. */
  ghost predicate DepthsFrom(before: set<(Id, int)>, after: set<(Id, int)>, depth: int) {
    forall c :: c in after && c !in before ==> c.1 == depth || c.1 == 1
  }

  lemma DepthsTrans(a: set<(Id, int)>, b: set<(Id, int)>, c: set<(Id, int)>, depth: int)
    requires a <= b && DepthsFrom(a, b, depth) && DepthsFrom(b, c, depth)
    ensures DepthsFrom(a, c, depth)
  {
  }

  /** One run of `_clean`: `seen` is the memo table keyed by the objects'
      equality classes, `nodes` the `_call` objects created so far (a `Ref`
      is an index into it), and `made` the `_clean` calls whose body ran,
      each with the depth it was given. */
  class Cleaner {
    const heap: map<Id, Obj>
    const env: Env
    var seen: map<nat, Val>
    var nodes: seq<Node>
    ghost var made: set<(Id, int)>

    constructor (heap: map<Id, Obj>, env: Env)
      ensures this.heap == heap && this.env == env
      ensures seen == map[] && nodes == [] && made == {}
    {
      this.heap := heap;
      this.env := env;
      seen := map[];
      nodes := [];
      made := {};
    }

    /** `_clean(obj, pickler, depth, seen)`. `fuel` is what is left of the
        interpreter's recursion limit: a call made with none left raises
        RecursionError before its body runs. */
    method Clean(obj: Id, depth: int, fuel: nat) returns (r: Outcome<Val>)
      requires WellFormed(heap) && obj in heap
      modifies this
      decreases fuel, 3
      ensures Extends(old(seen), seen) && old(nodes) <= nodes && old(made) <= made
      ensures fuel == 0 ==> r == Raised(RecursionMessage) && seen == old(seen) && nodes == old(nodes) && made == old(made)
      // the call is recorded with its depth; the calls it makes get the same depth or 1
      ensures fuel > 0 ==> (obj, depth) in made
      ensures DepthsFrom(old(made), made, depth)
      // what it returns is what `seen` then holds for the object
      ensures fuel > 0 && r.Ok? ==> Recorded(env, seen, obj, r.value)
      ensures fuel > 0 ==>
        if Memoised(env, old(seen), obj) then
          // a memo hit comes before the depth test and changes nothing
          r == Ok(old(seen)[env.hashKey(obj).value]) && seen == old(seen) && nodes == old(nodes) &&
          made == old(made) + {(obj, depth)}
        else if depth == 0 then
          // the repr, stored under the object's own key when it has one and the repr succeeds
          r == ReprOf(env, obj) && nodes == old(nodes) && made == old(made) + {(obj, depth)} &&
          seen == Stored(env, old(seen), obj, r)
        else
          KindCleaned(env, obj, heap[obj], fuel, |old(nodes)|, r, old(seen), seen, nodes)
    {
      if fuel == 0 {
        return Raised(RecursionMessage);
      }
      made := made + {(obj, depth)};
      ghost var m1 := made;
      var key := env.hashKey(obj);
      if key.Some? && key.value in seen {
        return Ok(seen[key.value]);
      }
      if depth == 0 {
        r := ReprOf(env, obj);
        if r.Ok? && key.Some? {
          seen := seen[key.value := r.value];
        }
        return;
      }
      r := CleanKind(obj, depth, fuel);
      DepthsTrans(old(made), m1, made, depth);
    }

    /** The part of `_clean` after the memo table and the depth test: the
        branch for the object's kind, then the final `seen[obj] = result`. */
    method CleanKind(obj: Id, depth: int, fuel: nat) returns (r: Outcome<Val>)
      requires WellFormed(heap) && obj in heap && fuel > 0 && depth != 0 && !Memoised(env, seen, obj)
      modifies this
      decreases fuel, 2
      ensures Extends(old(seen), seen) && old(nodes) <= nodes && old(made) <= made
      ensures DepthsFrom(old(made), made, depth)
      ensures r.Ok? ==> Recorded(env, seen, obj, r.value)
      ensures KindCleaned(env, obj, heap[obj], fuel, |old(nodes)|, r, old(seen), seen, nodes)
    {
      var key := env.hashKey(obj);
      var o := heap[obj];
      if IsStructural(o) {
        if key.None? {
          return Raised(UnhashableMessage);
        }
        ghost var x, y;
        if o.Traceback? {
          r, x, y := CleanTraceback(obj, key.value, fuel);
        } else if o.Frame? {
          r, x, y := CleanFrame(obj, key.value, fuel);
        } else {
          r, x := CleanCode(obj, key.value, fuel);
        }
        // `seen` already maps the object to the pre-loaded mock, so the final
        // `seen[obj] = result` stores what is there and is left out
        return;
      } else if o.Container? {
        ghost var outs, vals;
        r, outs, vals := CleanContainer(obj, depth, fuel);
      } else if o.Dict? {
        ghost var outs, pairs;
        r, outs, pairs := CleanDict(obj, depth, fuel);
      } else if o.Function? {
        r := Ok(Stub(StubMessage));
      } else if IsStd(o) {
        r := Ok(Same(obj));
      } else {
        ghost var pairs, outs;
        r, pairs, outs := CleanObject(obj, depth, fuel);
      }
      if r.Ok? && key.Some? {
        ghost var before := seen;
        seen := seen[key.value := r.value];
        if o.Container? {
          ContainerCleanedStore(env, obj, o, r.value, before, r.value);
        } else if o.Dict? {
          DictCleanedStore(env, obj, o, r.value, before, r.value);
        }
      }
    }

    /** A nested `_clean` call made while building a mock or a container,
        seen only through what every such call guarantees: the memo table and
        the arena only grow, a call without stack raises RecursionError, and
        a substitute returned is the one recorded. */
    method CleanNested(obj: Id, depth: int, fuel: nat) returns (r: Outcome<Val>)
      requires WellFormed(heap) && obj in heap
      modifies this
      decreases fuel, 4
      ensures Extends(old(seen), seen) && old(nodes) <= nodes
      ensures old(made) <= made && (fuel > 0 ==> (obj, depth) in made) && DepthsFrom(old(made), made, depth)
      ensures fuel == 0 ==> r == Raised(RecursionMessage)
      ensures r.Ok? ==> Recorded(env, seen, obj, r.value)
    {
      r := Clean(obj, depth, fuel);
    }

    /** Two `_clean` calls one after the other, as for a pair of links or a
        dict item: `x` and `y` are what they return, and the second is made
        only when the first succeeds. */
    method CleanPair(a: Id, b: Id, depth: int, fuel: nat) returns (r: Outcome<(Val, Val)>, ghost x: Outcome<Val>, ghost y: Outcome<Val>)
      requires WellFormed(heap) && a in heap && b in heap && fuel > 0
      modifies this
      decreases fuel - 1, 5
      ensures Extends(old(seen), seen) && old(nodes) <= nodes
      ensures old(made) <= made && DepthsFrom(old(made), made, depth)
      ensures fuel == 1 ==> x == Raised(RecursionMessage) && r == Raised(RecursionMessage)
      ensures fuel > 1 ==> (a, depth) in made
      ensures x.Ok? ==> Recorded(env, seen, a, x.value) && (b, depth) in made
      ensures x.Ok? && y.Ok? ==> Recorded(env, seen, b, y.value)
      // the first failure reaches the caller
      ensures x.Raised? ==> r == Raised(x.error)
      ensures x.Ok? && y.Raised? ==> r == Raised(y.error)
      ensures x.Ok? && y.Ok? ==> r == Ok((x.value, y.value))
    {
      var first := CleanNested(a, depth, fuel - 1);
      x, y := first, first;
      if first.Raised? {
        return Raised(first.error), x, y;
      }
      ghost var s1, n1, m1 := seen, nodes, made;
      var second := CleanNested(b, depth, fuel - 1);
      y := second;
      ExtendsTrans(old(seen), s1, seen);
      PrefixTrans(old(nodes), n1, nodes);
      DepthsTrans(old(made), m1, made, depth);
      RecordedStable(env, s1, seen, a, first.value);
      if second.Raised? {
        return Raised(second.error), x, y;
      }
      r := Ok((first.value, second.value));
    }

    /** A traceback: tb_frame and tb_next cleaned with depth 1; `fr` and `nx`
        are what those calls return. */
    method CleanTraceback(obj: Id, key: nat, fuel: nat) returns (r: Outcome<Val>, ghost fr: Outcome<Val>, ghost nx: Outcome<Val>)
      requires WellFormed(heap) && obj in heap && heap[obj].Traceback? && fuel > 0
      requires env.hashKey(obj) == Some(key) && key !in seen
      modifies this
      decreases fuel, 0
      ensures Extends(old(seen), seen) && old(nodes) <= nodes
      ensures |old(nodes)| < |nodes| && key in seen && seen[key] == Ref(|old(nodes)|)
      ensures env.repr(obj).Raised? ==> r == Raised(env.repr(obj).error)
      ensures fuel == 1 && env.repr(obj).Ok? ==> r == Raised(RecursionMessage)
      ensures MockBuilt(env, obj, heap[obj], fuel, |old(nodes)|, r, seen, nodes)
      ensures old(made) <= made && DepthsFrom(old(made), made, 1)
      // tb_next is cleaned once tb_frame is, and a failure in either reaches the caller
      ensures env.repr(obj).Ok? && fuel > 1 ==>
        (heap[obj].frame, 1) in made && (fr.Raised? ==> r == Raised(fr.error)) &&
        (fr.Ok? ==> (heap[obj].next, 1) in made && (nx.Raised? ==> r == Raised(nx.error)) && (nx.Ok? ==> r.Ok?))
    {
      var o := heap[obj];
      TracebackLinks(heap, obj);
      var k := |nodes|;
      nodes := nodes + [Placeholder];  // pre-load to stop recursive cycles
      seen := seen[key := Ref(k)];
      if env.repr(obj).Raised? {
        r := Raised(env.repr(obj).error);
        return r, r, r;
      }
      var s := env.repr(obj).value;
      var links;
      links, fr, nx := CleanPair(o.frame, o.next, 1, fuel);
      if links.Raised? {
        return Raised(links.error), fr, nx;
      }
      nodes := nodes[k := Mock(TracebackHead(s, o)["tb_frame" := links.value.0]["tb_next" := links.value.1])];
      r := Ok(Ref(k));
      TracebackMockBuilt(env, obj, o, fuel, k, links.value.0, links.value.1, seen, nodes);
    }

    /** A frame: f_code and f_back cleaned with depth 1, globals and locals
        replaced by their reprs; `cd` and `bk` are what the two calls return. */
    method CleanFrame(obj: Id, key: nat, fuel: nat) returns (r: Outcome<Val>, ghost cd: Outcome<Val>, ghost bk: Outcome<Val>)
      requires WellFormed(heap) && obj in heap && heap[obj].Frame? && fuel > 0
      requires env.hashKey(obj) == Some(key) && key !in seen
      modifies this
      decreases fuel, 0
      ensures Extends(old(seen), seen) && old(nodes) <= nodes
      ensures |old(nodes)| < |nodes| && key in seen && seen[key] == Ref(|old(nodes)|)
      ensures env.repr(obj).Raised? ==> r == Raised(env.repr(obj).error)
      ensures fuel == 1 && env.repr(obj).Ok? ==> r == Raised(RecursionMessage)
      ensures MockBuilt(env, obj, heap[obj], fuel, |old(nodes)|, r, seen, nodes)
      ensures old(made) <= made && DepthsFrom(old(made), made, 1)
      // f_back is cleaned once f_code is; then the globals' reprs, then the
      // locals'; the first failure reaches the caller
      ensures env.repr(obj).Ok? && fuel > 1 ==>
        var g, l := ReprBindings(env, WithoutBuiltins(heap[obj].globals)), ReprBindings(env, heap[obj].locals);
        (heap[obj].code, 1) in made && (cd.Raised? ==> r == Raised(cd.error)) &&
        (cd.Ok? ==> (heap[obj].back, 1) in made && (bk.Raised? ==> r == Raised(bk.error))) &&
        (cd.Ok? && bk.Ok? ==>
          (g.Raised? ==> r == Raised(g.error)) && (g.Ok? && l.Raised? ==> r == Raised(l.error)) &&
          (g.Ok? && l.Ok? ==> r.Ok?))
    {
      var o := heap[obj];
      FrameLinks(heap, obj);
      var k := |nodes|;
      nodes := nodes + [Placeholder];  // pre-load to stop recursive cycles
      seen := seen[key := Ref(k)];
      if env.repr(obj).Raised? {
        r := Raised(env.repr(obj).error);
        return r, r, r;
      }
      var s := env.repr(obj).value;
      var links;
      links, cd, bk := CleanPair(o.code, o.back, 1, fuel);
      if links.Raised? {
        return Raised(links.error), cd, bk;
      }
      var g := ReprBindings(env, WithoutBuiltins(o.globals));
      if g.Raised? {
        return Raised(g.error), cd, bk;
      }
      var l := ReprBindings(env, o.locals);
      if l.Raised? {
        return Raised(l.error), cd, bk;
      }
      var fields := FrameHead(s, o)["f_code" := links.value.0]["f_back" := links.value.1]
                                   ["f_globals" := Mapping(PutAll(g.value))]["f_locals" := Mapping(PutAll(l.value))];
      nodes := nodes[k := Mock(fields)];
      r := Ok(Ref(k));
      FrameMockBuilt(env, obj, o, fuel, k, links.value.0, links.value.1, seen, nodes);
    }

    /** A code object: co_consts cleaned with depth 1, co_filename made
        absolute; `c` is what the call returns. */
    method CleanCode(obj: Id, key: nat, fuel: nat) returns (r: Outcome<Val>, ghost c: Outcome<Val>)
      requires WellFormed(heap) && obj in heap && heap[obj].Code? && fuel > 0
      requires env.hashKey(obj) == Some(key) && key !in seen
      modifies this
      decreases fuel, 0
      ensures Extends(old(seen), seen) && old(nodes) <= nodes
      ensures |old(nodes)| < |nodes| && key in seen && seen[key] == Ref(|old(nodes)|)
      ensures env.repr(obj).Raised? ==> r == Raised(env.repr(obj).error)
      ensures fuel == 1 && env.repr(obj).Ok? ==> r == Raised(RecursionMessage)
      ensures MockBuilt(env, obj, heap[obj], fuel, |old(nodes)|, r, seen, nodes)
      ensures old(made) <= made && DepthsFrom(old(made), made, 1)
      // a failure cleaning co_consts reaches the caller
      ensures env.repr(obj).Ok? && fuel > 1 ==>
        (heap[obj].consts, 1) in made && (c.Raised? ==> r == c) && (c.Ok? ==> r.Ok?)
    {
      var o := heap[obj];
      CodeLinks(heap, obj);
      var k := |nodes|;
      nodes := nodes + [Placeholder];  // pre-load to stop recursive cycles
      seen := seen[key := Ref(k)];
      if env.repr(obj).Raised? {
        r := Raised(env.repr(obj).error);
        return r, r;
      }
      var s := env.repr(obj).value;
      var consts := CleanNested(o.consts, 1, fuel - 1);
      c := consts;
      if consts.Raised? {
        return consts, c;
      }
      nodes := nodes[k := Mock(CodeHead(s, o)["co_consts" := consts.value]["co_filename" := Text(env.abspath(o.filename))])];
      r := Ok(Ref(k));
      CodeMockBuilt(env, obj, o, fuel, k, consts.value, seen, nodes);
    }

    /** A list, tuple or set: the same kind of container over the cleaned
        elements, with the depth passed on unchanged. `outs` are what the
        nested calls return, in order, up to the first that raises; `vals`
        the elements' substitutes when none does. */
    method CleanContainer(obj: Id, depth: int, fuel: nat) returns (r: Outcome<Val>, ghost outs: seq<Outcome<Val>>, ghost vals: seq<Val>)
      requires WellFormed(heap) && obj in heap && heap[obj].Container? && fuel > 0
      modifies this
      decreases fuel, 0
      ensures Extends(old(seen), seen) && old(nodes) <= nodes
      ensures old(made) <= made && DepthsFrom(old(made), made, depth)
      ensures |outs| <= |heap[obj].elems| && forall j :: 0 <= j < |outs| - 1 ==> outs[j].Ok?
      ensures fuel > 1 ==> forall j :: 0 <= j < |outs| ==> (heap[obj].elems[j], depth) in made
      ensures fuel == 1 && heap[obj].elems != [] ==> outs == [Raised(RecursionMessage)] && r == outs[0]
      // the first failure reaches the caller; otherwise every element was cleaned
      ensures r.Raised? ==> outs != [] && r == outs[|outs| - 1]
      ensures r.Ok? <==> |outs| == |heap[obj].elems| && forall j :: 0 <= j < |outs| ==> outs[j].Ok?
      ensures r.Ok? ==>
        var elems := heap[obj].elems;
        r.value == Collection(heap[obj].kind, Assemble(heap[obj].kind, vals)) && |vals| == |elems| &&
        forall j :: 0 <= j < |elems| ==> outs[j] == Ok(vals[j]) && Recorded(env, seen, elems[j], vals[j])
      ensures r.Ok? ==> ContainerCleaned(env, obj, heap[obj], r.value, seen)
    {
      var o := heap[obj];
      assert Sound(heap, obj);
      outs, vals := [], [];
      var results: seq<Val> := [];
      for i := 0 to |o.elems|
        invariant Extends(old(seen), seen) && old(nodes) <= nodes
        invariant old(made) <= made && DepthsFrom(old(made), made, depth)
        invariant |results| == i && |outs| == i && (fuel == 1 ==> i == 0)
        invariant forall j :: 0 <= j < i ==> outs[j] == Ok(results[j]) && Recorded(env, seen, o.elems[j], results[j])
        invariant fuel > 1 ==> forall j :: 0 <= j < i ==> (o.elems[j], depth) in made
      {
        ghost var before, nb, mb := seen, nodes, made;
        var e := CleanNested(o.elems[i], depth, fuel - 1);
        ExtendsTrans(old(seen), before, seen);
        PrefixTrans(old(nodes), nb, nodes);
        DepthsTrans(old(made), mb, made, depth);
        outs := outs + [e];
        if e.Raised? {
          return e, outs, vals;
        }
        results := results + [e.value];
      }
      vals := results;
      r := Ok(Collection(o.kind, Assemble(o.kind, results)));
    }

    /** A dict: keys and values cleaned with the depth passed on, stored as
        a dict comprehension does. `outs` are the cleaned items in order, up
        to the first that fails; `pairs` the cleaned items when none does. */
    method CleanDict(obj: Id, depth: int, fuel: nat) returns (r: Outcome<Val>, ghost outs: seq<Outcome<(Val, Val)>>, ghost pairs: seq<(Val, Val)>)
      requires WellFormed(heap) && obj in heap && heap[obj].Dict? && fuel > 0
      modifies this
      decreases fuel, 0
      ensures Extends(old(seen), seen) && old(nodes) <= nodes
      ensures old(made) <= made && DepthsFrom(old(made), made, depth)
      ensures |outs| <= |heap[obj].items| && forall j :: 0 <= j < |outs| - 1 ==> outs[j].Ok?
      // a value is cleaned once its key is
      ensures fuel > 1 ==> forall j :: 0 <= j < |outs| ==>
        (heap[obj].items[j].0, depth) in made && (outs[j].Ok? ==> (heap[obj].items[j].1, depth) in made)
      ensures fuel == 1 && heap[obj].items != [] ==> outs == [Raised(RecursionMessage)] && r == Raised(RecursionMessage)
      // the first failure reaches the caller; otherwise every item was cleaned
      ensures r.Raised? ==> outs != [] && outs[|outs| - 1].Raised? && r == Raised(outs[|outs| - 1].error)
      ensures r.Ok? <==> |outs| == |heap[obj].items| && forall j :: 0 <= j < |outs| ==> outs[j].Ok?
      ensures r.Ok? ==>
        var items := heap[obj].items;
        r.value == Mapping(PutAll(pairs)) && |pairs| == |items| &&
        forall j :: 0 <= j < |items| ==>
          outs[j] == Ok(pairs[j]) && Recorded(env, seen, items[j].0, pairs[j].0) && Recorded(env, seen, items[j].1, pairs[j].1)
      ensures r.Ok? ==> DictCleaned(env, obj, heap[obj], r.value, seen)
    {
      var o := heap[obj];
      assert Sound(heap, obj);
      outs, pairs := [], [];
      var results: seq<(Val, Val)> := [];
      for i := 0 to |o.items|
        invariant Extends(old(seen), seen) && old(nodes) <= nodes
        invariant old(made) <= made && DepthsFrom(old(made), made, depth)
        invariant |results| == i && |outs| == i && (fuel == 1 ==> i == 0)
        invariant forall j :: 0 <= j < i ==> outs[j] == Ok(results[j])
        invariant forall j :: 0 <= j < i ==>
          Recorded(env, seen, o.items[j].0, results[j].0) && Recorded(env, seen, o.items[j].1, results[j].1)
        invariant fuel > 1 ==> forall j :: 0 <= j < i ==> (o.items[j].0, depth) in made && (o.items[j].1, depth) in made
      {
        ghost var before, nb, mb := seen, nodes, made;
        var pair, x, y := CleanPair(o.items[i].0, o.items[i].1, depth, fuel);
        ExtendsTrans(old(seen), before, seen);
        PrefixTrans(old(nodes), nb, nodes);
        DepthsTrans(old(made), mb, made, depth);
        outs := outs + [pair];
        if pair.Raised? {
          return Raised(pair.error), outs, pairs;
        }
        results := results + [pair.value];
      }
      pairs := results;
      r := Ok(Mapping(PutAll(results)));
      PutAllKeys(results);
      forall j | 0 <= j < |o.items| && env.hashKey(o.items[j].0).Some?
        ensures seen[env.hashKey(o.items[j].0).value] in Keys(r.value.items)
      {
        assert results[j].0 == seen[env.hashKey(o.items[j].0).value];
      }
    }

    /** Any other object (a module or an instance): inside a `try`, a mock
        over the attributes whose names start with "__"; when the `try`
        fails, the object's repr, whose own failure reaches the caller.
        `pairs` are the mock's attribute assignments in order, `outs` what
        the nested calls return. */
    method CleanObject(obj: Id, depth: int, fuel: nat)
      returns (r: Outcome<Val>, ghost pairs: seq<(string, Val)>, ghost outs: seq<Outcome<Val>>)
      requires WellFormed(heap) && obj in heap && Reflective(heap[obj]) && fuel > 0
      requires !Memoised(env, seen, obj)
      modifies this
      decreases fuel, 1
      ensures Extends(old(seen), seen) && old(nodes) <= nodes
      // storing an unhashable object in `seen` fails first
      ensures env.hashKey(obj).None? ==> r == ReprOf(env, obj) && seen == old(seen) && nodes == old(nodes)
      ensures env.hashKey(obj).Some? ==>
        var k := |old(nodes)|;
        k < |nodes| && env.hashKey(obj).value in seen && seen[env.hashKey(obj).value] == Ref(k)
      ensures env.repr(obj).Raised? ==> r == Raised(env.repr(obj).error)
      ensures env.repr(obj).Ok? ==> r == Ok(Text(env.repr(obj).value)) || r == Ok(Ref(|old(nodes)|))
      // `dir()` or a `getattr` raising, or the recursion limit, sends it to the `except`
      ensures Dir(heap[obj]).None? || !AllReadable(DunderAttrs(Dir(heap[obj]).value))
              || (fuel == 1 && DunderAttrs(Dir(heap[obj]).value) != []) ==>
        r == ReprOf(env, obj)
      ensures r.Ok? && r.value.Ref? ==>
        var attrs := DunderAttrs(Dir(heap[obj]).value);
        |pairs| == |attrs| &&
        (forall i :: 0 <= i < |attrs| ==>
           pairs[i].0 == attrs[i].name && Recorded(env, seen, attrs[i].value.value, pairs[i].1)) &&
        nodes[r.value.node] == Mock(Updated(ObjectHead(env.repr(obj).value), pairs))
      ensures old(made) <= made && DepthsFrom(old(made), made, depth)
      // each attribute read is cleaned with the depth passed on, and a
      // failing nested call sends it to the `except`
      ensures env.hashKey(obj).Some? && env.repr(obj).Ok? && Dir(heap[obj]).Some? ==>
        var attrs := DunderAttrs(Dir(heap[obj]).value);
        |outs| <= |attrs| &&
        (forall j :: 0 <= j < |outs| ==> attrs[j].value.Some? && (fuel > 1 ==> (attrs[j].value.value, depth) in made)) &&
        (outs != [] && outs[|outs| - 1].Raised? ==> r == ReprOf(env, obj))
    {
      var o := heap[obj];
      pairs, outs := [], [];
      var key := env.hashKey(obj);
      if key.None? {
        return ReprOf(env, obj), pairs, outs;
      }
      var k := |nodes|;
      nodes := nodes + [Placeholder];  // pre-load to stop recursive cycles
      seen := seen[key.value := Ref(k)];
      r, pairs, outs := TryMock(obj, k, depth, fuel);
    }

    /** The rest of the `try` once the placeholder is in slot `k`: the mock
        over the attributes whose names start with "__" in slot `k`, or the
        repr when the repr, `dir()`, a `getattr` or a nested call raises. */
    method TryMock(obj: Id, k: nat, depth: int, fuel: nat)
      returns (r: Outcome<Val>, ghost pairs: seq<(string, Val)>, ghost outs: seq<Outcome<Val>>)
      requires WellFormed(heap) && obj in heap && Reflective(heap[obj]) && fuel > 0 && k < |nodes|
      modifies this
      decreases fuel, 0
      ensures Extends(old(seen), seen) && old(nodes)[..k] <= nodes && k < |nodes|
      ensures env.repr(obj).Raised? ==> r == Raised(env.repr(obj).error)
      ensures env.repr(obj).Ok? ==> r == Ok(Text(env.repr(obj).value)) || r == Ok(Ref(k))
      ensures Dir(heap[obj]).None? || !AllReadable(DunderAttrs(Dir(heap[obj]).value))
              || (fuel == 1 && DunderAttrs(Dir(heap[obj]).value) != []) ==>
        r == ReprOf(env, obj)
      ensures r.Ok? && r.value.Ref? ==>
        var attrs := DunderAttrs(Dir(heap[obj]).value);
        |pairs| == |attrs| &&
        (forall i :: 0 <= i < |attrs| ==>
           pairs[i].0 == attrs[i].name && Recorded(env, seen, attrs[i].value.value, pairs[i].1)) &&
        nodes[r.value.node] == Mock(Updated(ObjectHead(env.repr(obj).value), pairs))
      ensures old(made) <= made && DepthsFrom(old(made), made, depth)
      ensures env.repr(obj).Ok? && Dir(heap[obj]).Some? ==>
        var attrs := DunderAttrs(Dir(heap[obj]).value);
        |outs| <= |attrs| &&
        (forall j :: 0 <= j < |outs| ==> attrs[j].value.Some? && (fuel > 1 ==> (attrs[j].value.value, depth) in made)) &&
        (outs != [] && outs[|outs| - 1].Raised? ==> r == ReprOf(env, obj))
    {
      var o := heap[obj];
      pairs, outs := [], [];
      if env.repr(obj).Raised? || Dir(o).None? {
        return ReprOf(env, obj), pairs, outs;
      }
      var s := env.repr(obj).value;
      var attrs := DunderAttrs(Dir(o).value);
      AttrsLinks(heap, obj);
      assert forall i :: 0 <= i < |attrs| ==> attrs[i] in Dir(o).value;
      var complete, fields;
      complete, fields, pairs, outs := MockAttributes(s, attrs, depth, fuel);
      if !complete {
        return ReprOf(env, obj), pairs, outs;
      }
      nodes := nodes[k := Mock(fields)];
      r := Ok(Ref(k));
    }

    /** `dct.update((at, _clean(getattr(obj, at), ...)) for at in attrs)` on
        the dict of a mock whose repr is `s`: `fields` is that dict
        afterwards, `outs` what the nested calls return, in order. `complete`
        is false when a `getattr` or a nested call raises. */
    method MockAttributes(s: string, attrs: seq<Attr>, depth: int, fuel: nat)
      returns (complete: bool, fields: map<string, Val>, ghost pairs: seq<(string, Val)>, ghost outs: seq<Outcome<Val>>)
      requires WellFormed(heap) && fuel > 0
      requires forall i :: 0 <= i < |attrs| && attrs[i].value.Some? ==> attrs[i].value.value in heap
      modifies this
      decreases fuel - 1, 5
      ensures Extends(old(seen), seen) && old(nodes) <= nodes
      ensures !AllReadable(attrs) || (fuel == 1 && attrs != []) ==> !complete
      ensures complete ==>
        |pairs| == |attrs| && fields == Updated(ObjectHead(s), pairs) &&
        forall i :: 0 <= i < |attrs| ==>
          attrs[i].value.Some? && pairs[i].0 == attrs[i].name && Recorded(env, seen, attrs[i].value.value, pairs[i].1)
      ensures old(made) <= made && DepthsFrom(old(made), made, depth)
      ensures |outs| <= |attrs| && forall j :: 0 <= j < |outs| - 1 ==> outs[j].Ok?
      ensures forall j :: 0 <= j < |outs| ==> attrs[j].value.Some? && (fuel > 1 ==> (attrs[j].value.value, depth) in made)
      // complete exactly when every attribute was read and every nested call succeeded
      ensures complete <==> |outs| == |attrs| && forall j :: 0 <= j < |outs| ==> outs[j].Ok?
      // it stops at the first attribute `getattr` cannot read or the first nested call that raises
      ensures |outs| < |attrs| ==> attrs[|outs|].value.None? || (outs != [] && outs[|outs| - 1].Raised?)
      ensures fuel == 1 && attrs != [] && attrs[0].value.Some? ==> outs == [Raised(RecursionMessage)]
    {
      fields := ObjectHead(s);
      pairs, outs := [], [];
      for i := 0 to |attrs|
        invariant Extends(old(seen), seen) && old(nodes) <= nodes
        invariant old(made) <= made && DepthsFrom(old(made), made, depth)
        invariant |pairs| == i && |outs| == i && (fuel == 1 ==> i == 0) && fields == Updated(ObjectHead(s), pairs)
        invariant forall j :: 0 <= j < i ==>
          attrs[j].value.Some? && pairs[j].0 == attrs[j].name && Recorded(env, seen, attrs[j].value.value, pairs[j].1)
        invariant forall j :: 0 <= j < i ==> outs[j] == Ok(pairs[j].1) && (fuel > 1 ==> (attrs[j].value.value, depth) in made)
      {
        if attrs[i].value.None? {
          return false, fields, pairs, outs;
        }
        ghost var before, nb, mb := seen, nodes, made;
        var v := CleanNested(attrs[i].value.value, depth, fuel - 1);
        ExtendsTrans(old(seen), before, seen);
        PrefixTrans(old(nodes), nb, nodes);
        DepthsTrans(old(made), mb, made, depth);
        outs := outs + [v];
        if v.Raised? {
          assert !outs[i].Ok?;
          return false, fields, pairs, outs;
        }
        forall j | 0 <= j < i ensures Recorded(env, seen, attrs[j].value.value, pairs[j].1) {
          RecordedStable(env, before, seen, attrs[j].value.value, pairs[j].1);
        }
        ghost var longer := pairs + [(attrs[i].name, v.value)];
        assert longer[..|longer| - 1] == pairs;
        pairs := longer;
        fields := fields[attrs[i].name := v.value];
      }
      complete := true;
    }
  }

  /** `_prepare_traceback(trace)` as `setup` registers it: the source files
      are read from the original traceback first, and only then is the
      traceback cleaned. */
  method PrepareTraceback(heap: map<Id, Obj>, env: Env, trace: Id, fuel: nat)
    returns (r: Outcome<Reduction>, nodes: seq<Node>, ghost calls: set<(Id, int)>)
    requires WellFormed(heap) && trace in heap && heap[trace].Traceback?
    ensures r.Ok? ==>
      r.value.Restore? && r.value.files == Collect(env, heap, map[], VisitOrder(heap, trace)) &&
      r.value.trace == Ref(0) && |nodes| > 0 && env.repr(trace).Ok? &&
      MockOf(nodes[0], env.repr(trace).value, FromImport("types", "TracebackType"))
    // the nested calls need stack, and the traceback must be hashable and have a repr
    ensures fuel <= 1 || env.hashKey(trace).None? || env.repr(trace).Raised? ==> r.Raised?
    // every `_clean` call is given depth 1, so the depth-0 branch never runs
    ensures fuel > 0 ==> (trace, 1) in calls
    ensures forall c :: c in calls ==> c.1 == 1
  {
    var files, _ := Snapshot(heap, env, trace);
    var cleaner := new Cleaner(heap, env);
    var cleaned := cleaner.Clean(trace, 1, fuel);
    nodes, calls := cleaner.nodes, cleaner.made;
    if cleaned.Raised? {
      return Raised(cleaned.error), nodes, calls;
    }
    r := Ok(Restore(cleaned.value, files));
  }
}
