/** keepTrace.py: the depth-bounded sanitizer. Substitutes are memoised by
    `id(obj)` in `seen`; any failure while classifying an object becomes a
    description of the failure, so `_clean` itself never raises. */
module KeepTrace {
  import opened Wrappers
  import opened Heap
  import opened Substitute
  import opened SourceFiles

  const StubMessage := "This is a stub function. The original was not serialized."

  /** STD_TYPES as keepTrace computes it: the pickler's dispatch types other
      than those saved by `save_global` or `save_type`. Containers are in it
      too, but are handled before this test is reached. */
  predicate IsStd(o: Obj) {
    o.NoneObj? || o.Scalar?
  }

  /** `repr(obj)`, or, when repr raises, the failure text of the outer `except`. */
  function ReprOrFailure(env: Env, obj: Id): Val {
    match env.repr(obj)
    case Ok(s) => Text(s)
    case Raised(e) => Text(FailMessage(e))
  }

  /** The first-match policy for the kinds that need no traversal, in the
      source's order: the pickle trial, functions, STD_TYPES, modules. None
      means the object falls through to the generic mock. */
  function Settle(env: Env, pickler: bool, obj: Id, o: Obj): Option<Val>
    requires !IsStructural(o) && !o.Container? && !o.Dict?
  {
    if pickler && env.roundTrips(obj) then Some(Same(obj))
    else if o.Function? then Some(Stub(StubMessage))
    else if IsStd(o) then Some(Same(obj))
    else if o.Module? then
      if o.file.None? || StartsWith(o.file.value, env.stdlibDir) then Some(Import(o.name))
      else Some(ReprOrFailure(env, obj))
    else None
  }

  /** A function the pickle trial does not keep becomes `_stub`, and calling
      the stub, with any arguments, raises UserWarning with the stub message;
      one the trial keeps is kept as it is. */
  lemma FunctionsStubbed(env: Env, pickler: bool, obj: Id, o: Obj, args: seq<Val>)
    requires o.Function?
    ensures pickler && env.roundTrips(obj) ==> Settle(env, pickler, obj, o) == Some(Same(obj))
    ensures !(pickler && env.roundTrips(obj)) ==>
      Settle(env, pickler, obj, o) == Some(Stub(StubMessage)) &&
      CallStub(Settle(env, pickler, obj, o).value, args) == Raised(StubMessage)
  {
  }

  /** Global bindings whose names do not start with "__". */
  function PublicGlobals(bs: seq<(string, Id)>): (r: seq<(string, Id)>)
    ensures forall b :: b in r <==> b in bs && !StartsWith(b.0, "__")
    ensures |r| <= |bs|
  {
    if bs == [] then []
    else
      var n := |bs| - 1;
      assert forall b :: b in bs <==> b in bs[..n] || b == bs[n];
      if StartsWith(bs[n].0, "__") then PublicGlobals(bs[..n]) else PublicGlobals(bs[..n]) + [bs[n]]
  }

  /** The attributes `dir()` lists whose names do not start with "__". */
  function PublicAttrs(attrs: seq<Attr>): (r: seq<Attr>)
    ensures forall a :: a in r <==> a in attrs && !StartsWith(a.name, "__")
  {
    if attrs == [] then []
    else
      var n := |attrs| - 1;
      assert forall a :: a in attrs <==> a in attrs[..n] || a == attrs[n];
      if StartsWith(attrs[n].name, "__") then PublicAttrs(attrs[..n]) else PublicAttrs(attrs[..n]) + [attrs[n]]
  }

  /** The mock's dict right after pre-loading: the repr, the type it mimics
      and the raw `tb_` attributes. */
  function TracebackHead(s: string, o: Obj): map<string, Val>
    requires o.Traceback?
  {
    map["_repr" := Text(s), "_mock" := FromImport("types", "TracebackType")]
      + Raw(o.attrs, "tb_") + map["tb_frame" := Same(o.frame), "tb_next" := Same(o.next)]
  }

  function FrameHead(s: string, o: Obj): map<string, Val>
    requires o.Frame?
  {
    map["_repr" := Text(s), "_mock" := FromImport("types", "FrameType")]
      + Raw(o.attrs, "f_") + map["f_code" := Same(o.code), "f_back" := Same(o.back)]
      + map["f_builtins" := FromImport("types", "__builtins__")]
  }

  function CodeHead(s: string, o: Obj): map<string, Val>
    requires o.Code?
  {
    map["_repr" := Text(s), "_mock" := FromImport("types", "CodeType")]
      + Raw(o.attrs, "co_") + map["co_consts" := Same(o.consts), "co_filename" := Text(o.filename)]
  }

  function ObjectHead(s: string): map<string, Val> {
    map["_repr" := Text(s), "_mock" := BaseObject]
  }

  lemma BindingsStable(bs: seq<(string, Id)>, s1: map<Id, Val>, s2: map<Id, Val>)
    requires forall i :: 0 <= i < |bs| ==> bs[i].1 in s1
    requires Extends(s1, s2)
    ensures forall i :: 0 <= i < |bs| ==> bs[i].1 in s2
    ensures Bindings(bs, s1) == Bindings(bs, s2)
  {
  }

  lemma AttrPairsStable(attrs: seq<Attr>, s1: map<Id, Val>, s2: map<Id, Val>)
    requires forall i :: 0 <= i < |attrs| ==> attrs[i].value.Some? && attrs[i].value.value in s1
    requires Extends(s1, s2)
    ensures AttrPairs(attrs, s1) == AttrPairs(attrs, s2)
  {
  }

  // ----- what `_clean` leaves behind for one object of each kind -----
  // `k` is the arena index the object's mock takes, `v` its substitute, and
  // `seen` and `nodes` the memo table and the arena afterwards.

  /** A traceback: its repr's failure text, or the mock with tb_frame and
      tb_next replaced by their substitutes; with the recursion limit reached
      inside, the pre-loaded mock stays and the substitute is the failure text. */
  ghost predicate TracebackMocked(heap: map<Id, Obj>, env: Env, obj: Id, fuel: nat, k: nat, v: Val,
                                  seen: map<Id, Val>, nodes: seq<Node>)
    requires obj in heap && heap[obj].Traceback?
  {
    var o := heap[obj];
    match env.repr(obj)
    case Raised(e) => v == Text(FailMessage(e))
    case Ok(s) =>
      k < |nodes| &&
      if fuel == 1 then v == Text(FailMessage(RecursionMessage)) && nodes[k] == Mock(TracebackHead(s, o))
      else
        v == Ref(k) && o.frame in seen && o.next in seen &&
        nodes[k] == Mock(TracebackHead(s, o)["tb_frame" := seen[o.frame]]["tb_next" := seen[o.next]])
  }

  /** A frame: f_code and f_back replaced, f_globals the public globals and
      f_locals the locals, each as a dict of substitutes. */
  ghost predicate FrameMocked(heap: map<Id, Obj>, env: Env, obj: Id, fuel: nat, k: nat, v: Val,
                              seen: map<Id, Val>, nodes: seq<Node>)
    requires obj in heap && heap[obj].Frame?
  {
    var o := heap[obj];
    match env.repr(obj)
    case Raised(e) => v == Text(FailMessage(e))
    case Ok(s) =>
      k < |nodes| &&
      if fuel == 1 then v == Text(FailMessage(RecursionMessage)) && nodes[k] == Mock(FrameHead(s, o))
      else
        v == Ref(k) && o.code in seen && o.back in seen &&
        (forall i :: 0 <= i < |o.locals| ==> o.locals[i].1 in seen) &&
        (forall i :: 0 <= i < |PublicGlobals(o.globals)| ==> PublicGlobals(o.globals)[i].1 in seen) &&
        nodes[k] == Mock(FrameHead(s, o)["f_code" := seen[o.code]]["f_back" := seen[o.back]]
                                        ["f_globals" := Mapping(PutAll(Bindings(PublicGlobals(o.globals), seen)))]
                                        ["f_locals" := Mapping(PutAll(Bindings(o.locals, seen)))])
  }

  /** A code object: co_consts replaced and co_filename made absolute. */
  ghost predicate CodeMocked(heap: map<Id, Obj>, env: Env, obj: Id, fuel: nat, k: nat, v: Val,
                             seen: map<Id, Val>, nodes: seq<Node>)
    requires obj in heap && heap[obj].Code?
  {
    var o := heap[obj];
    match env.repr(obj)
    case Raised(e) => v == Text(FailMessage(e))
    case Ok(s) =>
      k < |nodes| &&
      if fuel == 1 then v == Text(FailMessage(RecursionMessage)) && nodes[k] == Mock(CodeHead(s, o))
      else
        v == Ref(k) && o.consts in seen &&
        nodes[k] == Mock(CodeHead(s, o)["co_consts" := seen[o.consts]]["co_filename" := Text(env.abspath(o.filename))])
  }

  /** A list, tuple or set: a container of the same kind. A list or tuple
      holds each element's substitute at the element's position, a set holds
      each element's substitute and nothing else; an element that is the
      container itself was cleaned before the container was recorded, so its
      substitute is not pinned down. */
  ghost predicate ContainerCleaned(heap: map<Id, Obj>, obj: Id, fuel: nat, v: Val, seen: map<Id, Val>)
    requires obj in heap && heap[obj].Container?
  {
    var o := heap[obj];
    if fuel == 1 && o.elems != [] then v == Text(FailMessage(RecursionMessage))
    else
      v.Collection? && v.kind == o.kind &&
      (o.kind != SetKind ==>
        |v.elems| == |o.elems| &&
        forall j :: 0 <= j < |o.elems| && o.elems[j] != obj ==> o.elems[j] in seen && v.elems[j] == seen[o.elems[j]]) &&
      (o.kind == SetKind ==>
        NoDuplicates(v.elems) &&
        (forall j :: 0 <= j < |o.elems| && o.elems[j] != obj ==> o.elems[j] in seen && seen[o.elems[j]] in v.elems) &&
        exists vals: seq<Val> :: v.elems == AddAll(vals) && |vals| == |o.elems| &&
          forall j :: 0 <= j < |o.elems| && o.elems[j] != obj ==> o.elems[j] in seen && vals[j] == seen[o.elems[j]])
  }

  /** A dict: the comprehension over the substitutes, each key once, binding
      the substitute of every key to the substitute of its value (for the
      items that do not hold the dict itself). */
  ghost predicate DictCleaned(heap: map<Id, Obj>, obj: Id, fuel: nat, v: Val, seen: map<Id, Val>)
    requires obj in heap && heap[obj].Dict?
  {
    var o := heap[obj];
    if fuel == 1 && o.items != [] then v == Text(FailMessage(RecursionMessage))
    else
      v.Mapping? && UniqueKeys(v.items) &&
      (forall j :: 0 <= j < |o.items| && o.items[j].0 != obj && o.items[j].1 != obj ==>
        o.items[j].0 in seen && o.items[j].1 in seen && seen[o.items[j].0] in Keys(v.items)) &&
      exists pairs: seq<(Val, Val)> :: v == Mapping(PutAll(pairs)) && |pairs| == |o.items| &&
        forall j :: 0 <= j < |o.items| && o.items[j].0 != obj && o.items[j].1 != obj ==>
          pairs[j] == (seen[o.items[j].0], seen[o.items[j].1])
  }

  /** Any other object: the failure text when repr raises; otherwise the mock
      over its public attributes exactly when `dir()` and every `getattr`
      succeed and the recursion limit allows the reads, else its repr. */
  ghost predicate ObjectMocked(heap: map<Id, Obj>, env: Env, obj: Id, fuel: nat, k: nat, v: Val,
                               seen: map<Id, Val>, nodes: seq<Node>)
    requires obj in heap && Reflective(heap[obj])
  {
    var o := heap[obj];
    match env.repr(obj)
    case Raised(e) => v == Text(FailMessage(e))
    case Ok(s) =>
      k < |nodes| &&
      (v == Ref(k) <==>
        Dir(o).Some? && AllReadable(PublicAttrs(Dir(o).value)) && (fuel > 1 || PublicAttrs(Dir(o).value) == [])) &&
      (v != Ref(k) ==> v == Text(s)) &&
      (v == Ref(k) ==>
        var attrs := PublicAttrs(Dir(o).value);
        (forall i :: 0 <= i < |attrs| ==> attrs[i].value.Some? && attrs[i].value.value in seen) &&
        nodes[k] == Mock(Updated(ObjectHead(s), AttrPairs(attrs, seen))))
  }

  /** The part of a frame's mock a traceback's cycle runs through: f_locals
      is the dict of the locals' substitutes. */
  ghost predicate LocalsMocked(heap: map<Id, Obj>, obj: Id, k: nat, seen: map<Id, Val>, nodes: seq<Node>)
    requires obj in heap && heap[obj].Frame?
  {
    var ls := heap[obj].locals;
    k < |nodes| && (forall i :: 0 <= i < |ls| ==> ls[i].1 in seen) &&
    nodes[k].Mock? && "f_locals" in nodes[k].fields &&
    nodes[k].fields["f_locals"] == Mapping(PutAll(Bindings(ls, seen)))
  }

  /** No later local of the frame has the same name. */
  predicate LastOfName(bs: seq<(string, Id)>, i: nat)
    requires i < |bs|
  {
    forall j :: i < j < |bs| ==> bs[j].0 != bs[i].0
  }

  /** In the frame mock `node`, every local of the traceback's tb_frame that
      is bound to the traceback itself reads `v`. */
  ghost predicate LocalsReadBack(heap: map<Id, Obj>, obj: Id, node: Node, v: Val)
    requires obj in heap && heap[obj].Traceback?
  {
    var f := heap[obj].frame;
    f in heap && heap[f].Frame? && node.Mock? &&
    "f_locals" in node.fields && node.fields["f_locals"].Mapping? &&
    forall i :: 0 <= i < |heap[f].locals| && heap[f].locals[i].1 == obj && LastOfName(heap[f].locals, i) ==>
      Lookup(node.fields["f_locals"].items, Text(heap[f].locals[i].0)) == Some(v)
  }

  /** A frame mock's f_locals reads, for each local name, the substitute of
      the last local bound under that name. */
  lemma FrameLocalRead(heap: map<Id, Obj>, obj: Id, k: nat, seen: map<Id, Val>, nodes: seq<Node>, i: nat)
    requires obj in heap && heap[obj].Frame?
    requires LocalsMocked(heap, obj, k, seen, nodes)
    requires i < |heap[obj].locals| && LastOfName(heap[obj].locals, i)
    ensures nodes[k].Mock? && "f_locals" in nodes[k].fields && nodes[k].fields["f_locals"].Mapping?
    ensures Lookup(nodes[k].fields["f_locals"].items, Text(heap[obj].locals[i].0)) == Some(seen[heap[obj].locals[i].1])
  {
    var ls := heap[obj].locals;
    var pairs := Bindings(ls, seen);
    assert forall j :: i < j < |pairs| ==> pairs[j].0 != pairs[i].0 by {
      forall j | i < j < |pairs| ensures pairs[j].0 != pairs[i].0 {
        assert ls[j].0 != ls[i].0;
      }
    }
    PutAllLastWins(pairs, i);
  }

  /** The cycle a traceback closes through its frame's locals: in a frame
      mock built while the traceback was recorded as `v`, the locals bound to
      the traceback read `v`. */
  lemma CycleClosed(heap: map<Id, Obj>, obj: Id, fk: nat, v: Val, seen: map<Id, Val>, nodes: seq<Node>)
    requires obj in heap && heap[obj].Traceback? && heap[obj].frame in heap && heap[heap[obj].frame].Frame?
    requires LocalsMocked(heap, heap[obj].frame, fk, seen, nodes)
    requires obj in seen && seen[obj] == v
    ensures LocalsReadBack(heap, obj, nodes[fk], v)
  {
    var f := heap[obj].frame;
    forall i | 0 <= i < |heap[f].locals| && heap[f].locals[i].1 == obj && LastOfName(heap[f].locals, i)
      ensures Lookup(nodes[fk].fields["f_locals"].items, Text(heap[f].locals[i].0)) == Some(v)
    {
      FrameLocalRead(heap, f, fk, seen, nodes, i);
    }
  }

  // ----- the depth each nested `_clean` call is given -----
  // `d` is the depth after the `depth -= 1` that opens `_clean`.

  /** The depth keepTrace.py:167 gives co_consts: `depth + 2`. A code object
      reached with depth -1, which is documented to mean no limit, has `d`
      of -2 and so passes 0: its constants are cut to their repr. */
  function ConstsDepthAsWritten(d: int): int {
    d + 2
  }

  /** The depth co_consts is meant to get: two more than `d`, while a
      negative depth, which means no limit, stays negative. */
  function ConstsDepth(d: int): int {
    if d < 0 then d else d + 2
  }

  /** Every call in `after` that is not in `before` was given a negative
      depth, so none of them cut an object down to its repr. */
  ghost predicate Unlimited(before: set<(Id, int)>, after: set<(Id, int)>) {
    forall c :: c in after && c !in before ==> c.1 < 0
  }

  lemma UnlimitedTrans(a: set<(Id, int)>, b: set<(Id, int)>, c: set<(Id, int)>)
    requires a <= b && Unlimited(a, b) && Unlimited(b, c)
    ensures Unlimited(a, c)
  {
  }

  /** The nested `_clean` calls the branch for `obj` makes, each with the
      depth the source gives it, are among the calls `made`: a traceback's,
      frame's or code object's links get the depth `obj` was given,
      co_consts gets `cd`, and bindings, elements, keys, values and
      attributes one less. Each call is made only once the repr has
      succeeded and while there is stack for it; an attribute is read only
      if every attribute before it could be. */
  ghost predicate Fanout(heap: map<Id, Obj>, env: Env, pickler: bool, obj: Id, depth: int, cd: int, fuel: nat,
                         made: set<(Id, int)>)
    requires obj in heap
  {
    match heap[obj]
    case Traceback(_, _, _) => TracebackFanout(heap, env, obj, depth, fuel, made)
    case Frame(_, _, _, _, _) => FrameFanout(heap, env, obj, depth, fuel, made)
    case Code(_, consts, _) =>
      env.repr(obj).Ok? && fuel > 1 ==> (consts, cd) in made
    case Container(_, _) => ContainerFanout(heap, obj, depth, fuel, made)
    case Dict(_) => DictFanout(heap, obj, depth, fuel, made)
    case Module(_, _, _) => AttrsFanout(env, pickler, obj, heap[obj], depth, fuel, made)
    case Class(_) => AttrsFanout(env, pickler, obj, heap[obj], depth, fuel, made)
    case Instance(_) => AttrsFanout(env, pickler, obj, heap[obj], depth, fuel, made)
    case _ => true
  }

  /** A traceback's links get the traceback's own depth. */
  ghost predicate TracebackFanout(heap: map<Id, Obj>, env: Env, obj: Id, depth: int, fuel: nat, made: set<(Id, int)>)
    requires obj in heap && heap[obj].Traceback?
  {
    env.repr(obj).Ok? && fuel > 1 ==> (heap[obj].frame, depth) in made && (heap[obj].next, depth) in made
  }

  /** A frame's links get the frame's own depth, its bound values one less. */
  ghost predicate FrameFanout(heap: map<Id, Obj>, env: Env, obj: Id, depth: int, fuel: nat, made: set<(Id, int)>)
    requires obj in heap && heap[obj].Frame?
  {
    var o := heap[obj];
    env.repr(obj).Ok? && fuel > 1 ==>
      (o.code, depth) in made && (o.back, depth) in made &&
      (forall i :: 0 <= i < |PublicGlobals(o.globals)| ==> (PublicGlobals(o.globals)[i].1, depth - 1) in made) &&
      (forall i :: 0 <= i < |o.locals| ==> (o.locals[i].1, depth - 1) in made)
  }

  /** Each element gets one less. */
  ghost predicate ContainerFanout(heap: map<Id, Obj>, obj: Id, depth: int, fuel: nat, made: set<(Id, int)>)
    requires obj in heap && heap[obj].Container?
  {
    fuel > 1 ==> forall j :: 0 <= j < |heap[obj].elems| ==> (heap[obj].elems[j], depth - 1) in made
  }

  /** Each key and each value gets one less. */
  ghost predicate DictFanout(heap: map<Id, Obj>, obj: Id, depth: int, fuel: nat, made: set<(Id, int)>)
    requires obj in heap && heap[obj].Dict?
  {
    var items := heap[obj].items;
    fuel > 1 ==> forall j :: 0 <= j < |items| ==> (items[j].0, depth - 1) in made && (items[j].1, depth - 1) in made
  }

  /** The generic branch: once the repr and `dir()` succeed, each attribute
      up to the first one `getattr` cannot read is cleaned with one less. */
  ghost predicate AttrsFanout(env: Env, pickler: bool, obj: Id, o: Obj, depth: int, fuel: nat, made: set<(Id, int)>)
    requires Reflective(o)
  {
    Settle(env, pickler, obj, o).None? && env.repr(obj).Ok? && Dir(o).Some? && fuel > 1 ==>
      var attrs := PublicAttrs(Dir(o).value);
      forall j :: 0 <= j < ReadablePrefix(attrs) ==> (attrs[j].value.value, depth - 1) in made
  }

  /** One run of `_clean`: `seen` is the id-keyed memo table, `nodes` the
      `_call` mocks built so far (a `Ref` is an index into it), and `made`
      the `_clean` calls whose body ran, each with the depth it was given.
      `asWritten` selects the depth co_consts gets: keepTrace.py:167's, or
      the one meant (see `ConstsDepth`). */
  class Cleaner {
    const heap: map<Id, Obj>
    const env: Env
    const pickler: bool
    const asWritten: bool
    var seen: map<Id, Val>
    var nodes: seq<Node>
    ghost var made: set<(Id, int)>

    constructor (heap: map<Id, Obj>, env: Env, pickler: bool, asWritten: bool)
      ensures this.heap == heap && this.env == env && this.pickler == pickler && this.asWritten == asWritten
      ensures seen == map[] && nodes == [] && made == {}
    {
      this.heap := heap;
      this.env := env;
      this.pickler := pickler;
      this.asWritten := asWritten;
      seen := map[];
      nodes := [];
      made := {};
    }

    /** The depth co_consts is given when the code object's `d` is `d`. */
    function ConstsDepthUsed(d: int): int {
      if asWritten then ConstsDepthAsWritten(d) else ConstsDepth(d)
    }

    /** `_clean(obj, pickler, depth, seen)`. `fuel` is what is left of the
        interpreter's recursion limit: a call made with none left raises
        RecursionError before its body runs. */
    method Clean(obj: Id, depth: int, fuel: nat) returns (r: Outcome<Val>)
      requires WellFormed(heap) && obj in heap
      modifies this
      decreases fuel, 3
      ensures Extends(old(seen), seen) && old(nodes) <= nodes && old(made) <= made
      ensures fuel == 0 ==> r == Raised(RecursionMessage) && seen == old(seen) && nodes == old(nodes) && made == old(made)
      // never raises, and always records what it returns
      ensures fuel > 0 ==> r.Ok? && obj in seen && seen[obj] == r.value && (obj, depth) in made
      // a memo hit comes before the depth test and changes nothing
      ensures fuel > 0 && obj in old(seen) ==>
        r.value == old(seen)[obj] && seen == old(seen) && nodes == old(nodes) && made == old(made) + {(obj, depth)}
      // depth - 1 == -1: the cut-off, which makes no further call
      ensures fuel > 0 && obj !in old(seen) && depth == 0 ==>
        r.value == ReprOrFailure(env, obj) && seen == old(seen)[obj := r.value] && nodes == old(nodes) &&
        made == old(made) + {(obj, depth)}
      // a negative depth means no limit: no call made below has depth 0
      ensures !asWritten && depth < 0 ==> Unlimited(old(made), made)
      // the nested calls and the depths they are given
      ensures fuel > 0 && obj !in old(seen) && depth != 0 ==>
        Fanout(heap, env, pickler, obj, depth, ConstsDepthUsed(depth - 1), fuel, made)
      // otherwise the kinds in the source's order; a new mock takes the next arena slot
      ensures fuel > 0 && obj !in old(seen) && depth != 0 ==>
        var o, k := heap[obj], |old(nodes)|;
        if o.Traceback? then TracebackMocked(heap, env, obj, fuel, k, r.value, seen, nodes)
        else if o.Frame? then FrameMocked(heap, env, obj, fuel, k, r.value, seen, nodes)
        else if o.Code? then CodeMocked(heap, env, obj, fuel, k, r.value, seen, nodes)
        else if o.Container? then ContainerCleaned(heap, obj, fuel, r.value, seen)
        else if o.Dict? then DictCleaned(heap, obj, fuel, r.value, seen)
        else if Settle(env, pickler, obj, o).Some? then
          r.value == Settle(env, pickler, obj, o).value && seen == old(seen)[obj := r.value] && nodes == old(nodes) &&
          made == old(made) + {(obj, depth)}
        else ObjectMocked(heap, env, obj, fuel, k, r.value, seen, nodes)
    {
      if fuel == 0 {
        return Raised(RecursionMessage);
      }
      made := made + {(obj, depth)};
      var d := depth - 1;
      if obj in seen {
        return Ok(seen[obj]);
      }
      if d == -1 {
        var v := ReprOrFailure(env, obj);
        seen := seen[obj := v];
        return Ok(v);
      }
      ghost var m1 := made;
      var v := CleanKind(obj, d, fuel);
      if !asWritten && depth < 0 {
        UnlimitedTrans(old(made), m1, made);
      }
      return Ok(v);
    }

    /** The part of `_clean` after the memo table and the depth test: the
        branch for the object's kind, run with the already decremented depth
        `d`. */
    method CleanKind(obj: Id, d: int, fuel: nat) returns (v: Val)
      requires WellFormed(heap) && obj in heap && obj !in seen && fuel > 0 && d != -1
      modifies this
      decreases fuel, 2
      ensures Extends(old(seen), seen) && old(nodes) <= nodes && old(made) <= made
      ensures obj in seen && seen[obj] == v
      ensures !asWritten && d < -1 ==> Unlimited(old(made), made)
      ensures Fanout(heap, env, pickler, obj, d + 1, ConstsDepthUsed(d), fuel, made)
      ensures
        var o, k := heap[obj], |old(nodes)|;
        if o.Traceback? then TracebackMocked(heap, env, obj, fuel, k, v, seen, nodes)
        else if o.Frame? then FrameMocked(heap, env, obj, fuel, k, v, seen, nodes)
        else if o.Code? then CodeMocked(heap, env, obj, fuel, k, v, seen, nodes)
        else if o.Container? then ContainerCleaned(heap, obj, fuel, v, seen)
        else if o.Dict? then DictCleaned(heap, obj, fuel, v, seen)
        else if Settle(env, pickler, obj, o).Some? then
          v == Settle(env, pickler, obj, o).value && seen == old(seen)[obj := v] && nodes == old(nodes) &&
          made == old(made)
        else ObjectMocked(heap, env, obj, fuel, k, v, seen, nodes)
    {
      var o := heap[obj];
      if o.Traceback? {
        v := CleanTraceback(obj, d, fuel);
      } else if o.Frame? {
        v := CleanFrame(obj, d, fuel);
      } else if o.Code? {
        v := CleanCode(obj, d, fuel);
      } else if o.Container? {
        ghost var vals;
        v, vals := CleanContainer(obj, d, fuel);
      } else if o.Dict? {
        ghost var pairs;
        v, pairs := CleanDict(obj, d, fuel);
      } else {
        var settled := Settle(env, pickler, obj, o);
        if settled.Some? {
          v := settled.value;
          seen := seen[obj := v];
        } else {
          v := CleanObject(obj, d, fuel);
        }
      }
    }

    /** A nested `_clean` call made while building a mock or a container, seen
        only through what every such call guarantees: the substitute is
        recorded, and the memo table and the arena only grow. */
    method CleanNested(obj: Id, depth: int, fuel: nat) returns (v: Val)
      requires WellFormed(heap) && obj in heap && fuel > 0
      modifies this
      decreases fuel, 4
      ensures Extends(old(seen), seen) && old(nodes) <= nodes && obj in seen && seen[obj] == v
      ensures old(made) <= made && (obj, depth) in made
      ensures !asWritten && depth < 0 ==> Unlimited(old(made), made)
      ensures obj !in old(seen) && depth == 0 ==> v == ReprOrFailure(env, obj)
    {
      var r := Clean(obj, depth, fuel);
      v := r.value;
    }

    /** The nested `_clean` calls of a traceback's tb_frame and tb_next, made
        while the traceback is recorded: a frame not cleaned before becomes the
        next mock of the arena, and its locals bound to the traceback read the
        traceback's recorded substitute. */
    method CleanLinks(tb: Id, depth: int, fuel: nat) returns (f: Val, n: Val)
      requires WellFormed(heap) && tb in heap && heap[tb].Traceback? && tb in seen && fuel > 0 && depth != 0
      modifies this
      decreases fuel, 5
      ensures Extends(old(seen), seen) && old(nodes) <= nodes
      ensures old(made) <= made && (heap[tb].frame, depth) in made && (heap[tb].next, depth) in made
      ensures !asWritten && depth < 0 ==> Unlimited(old(made), made)
      ensures heap[tb].frame in seen && seen[heap[tb].frame] == f && heap[tb].next in seen && seen[heap[tb].next] == n
      ensures heap[tb].frame !in old(seen) && env.repr(heap[tb].frame).Ok? && fuel > 1 ==>
        f == Ref(|old(nodes)|) && |old(nodes)| < |nodes| && LocalsReadBack(heap, tb, nodes[|old(nodes)|], old(seen)[tb])
    {
      var o := heap[tb];
      assert Sound(heap, tb);
      ghost var s0, n0 := seen, nodes;
      var r := Clean(o.frame, depth, fuel);
      f := r.value;
      ghost var cycle := o.frame !in s0 && env.repr(o.frame).Ok? && fuel > 1;
      if cycle {
        assert FrameMocked(heap, env, o.frame, fuel, |n0|, f, seen, nodes);
        CycleClosed(heap, tb, |n0|, s0[tb], seen, nodes);
      }
      ghost var s1, n1, m1 := seen, nodes, made;
      n := CleanNested(o.next, depth, fuel);
      ExtendsTrans(s0, s1, seen);
      PrefixTrans(n0, n1, nodes);
      if !asWritten && depth < 0 {
        UnlimitedTrans(old(made), m1, made);
      }
      if cycle {
        assert nodes[|n0|] == n1[|n0|];
      }
    }

    method CleanTraceback(obj: Id, depth: int, fuel: nat) returns (v: Val)
      requires WellFormed(heap) && obj in heap && heap[obj].Traceback? && obj !in seen && fuel > 0
      requires depth != -1
      modifies this
      decreases fuel, 1
      ensures Extends(old(seen), seen) && old(nodes) <= nodes && obj in seen && seen[obj] == v
      ensures env.repr(obj).Raised? ==> seen == old(seen)[obj := v] && nodes == old(nodes)
      ensures TracebackMocked(heap, env, obj, fuel, |old(nodes)|, v, seen, nodes)
      // both links are cleaned with the depth the traceback was given
      ensures old(made) <= made && (!asWritten && depth < -1 ==> Unlimited(old(made), made))
      ensures TracebackFanout(heap, env, obj, depth + 1, fuel, made)
      // the pre-loaded mock resolves the cycle through the frame's locals: a
      // frame cleaned here is the next mock, and its locals bound to the
      // traceback read the traceback's own mock
      ensures env.repr(obj).Ok? && fuel > 2 && heap[obj].frame !in old(seen) && env.repr(heap[obj].frame).Ok? ==>
        seen[heap[obj].frame] == Ref(|old(nodes)| + 1) && |old(nodes)| + 1 < |nodes| &&
        LocalsReadBack(heap, obj, nodes[|old(nodes)| + 1], Ref(|old(nodes)|))
    {
      var o := heap[obj];
      TracebackLinks(heap, obj);
      match env.repr(obj)
      case Raised(e) =>
        v := Text(FailMessage(e));
        seen := seen[obj := v];
      case Ok(s) =>
        var k := |nodes|;
        nodes := nodes + [Mock(TracebackHead(s, o))];  // pre-load to stop recursive cycles
        seen := seen[obj := Ref(k)];
        if fuel == 1 {
          v := Text(FailMessage(RecursionMessage));
          seen := seen[obj := v];
          return;
        }
        ghost var s0, n0 := seen, nodes;
        ghost var cycle := fuel > 2 && o.frame !in old(seen) && env.repr(o.frame).Ok?;
        var f, n := CleanLinks(obj, depth + 1, fuel - 1);
        if cycle {
          assert o.frame !in s0 && |n0| == k + 1 && s0[obj] == Ref(k);
        }
        assert seen[obj] == Ref(k) && old(nodes) <= nodes[..k];
        nodes := nodes[k := Mock(TracebackHead(s, o)["tb_frame" := f]["tb_next" := n])];
        v := Ref(k);
    }

    /** Cleans the values of `bs` one after another. */
    method CleanBindings(bs: seq<(string, Id)>, depth: int, fuel: nat) returns (pairs: seq<(Val, Val)>)
      requires WellFormed(heap) && fuel > 1 && forall i :: 0 <= i < |bs| ==> bs[i].1 in heap
      modifies this
      decreases fuel - 1, 5
      ensures Extends(old(seen), seen) && old(nodes) <= nodes
      ensures (forall i :: 0 <= i < |bs| ==> bs[i].1 in seen) && pairs == Bindings(bs, seen)
      ensures old(made) <= made && (!asWritten && depth < 0 ==> Unlimited(old(made), made))
      ensures forall i :: 0 <= i < |bs| ==> (bs[i].1, depth) in made
    {
      pairs := [];
      for i := 0 to |bs|
        invariant Extends(old(seen), seen) && old(nodes) <= nodes
        invariant forall j :: 0 <= j < i ==> bs[j].1 in seen
        invariant pairs == Bindings(bs[..i], seen)
        invariant old(made) <= made && (!asWritten && depth < 0 ==> Unlimited(old(made), made))
        invariant forall j :: 0 <= j < i ==> (bs[j].1, depth) in made
      {
        ghost var before, nb, mb := seen, nodes, made;
        var r := CleanNested(bs[i].1, depth, fuel - 1);
        if !asWritten && depth < 0 {
          UnlimitedTrans(old(made), mb, made);
        }
        ExtendsTrans(old(seen), before, seen);
        PrefixTrans(old(nodes), nb, nodes);
        BindingsStable(bs[..i], before, seen);
        pairs := pairs + [(Text(bs[i].0), r)];
      }
      assert bs[..|bs|] == bs;
    }

    /** A frame's public globals, then its locals, cleaned as f_globals and
        f_locals are: `g` and `l` are the two comprehensions' pairs. */
    method CleanScopes(obj: Id, depth: int, fuel: nat) returns (g: seq<(Val, Val)>, l: seq<(Val, Val)>)
      requires WellFormed(heap) && obj in heap && heap[obj].Frame? && fuel > 1
      modifies this
      decreases fuel - 1, 6
      ensures Extends(old(seen), seen) && old(nodes) <= nodes
      ensures old(made) <= made && (!asWritten && depth < 0 ==> Unlimited(old(made), made))
      ensures var globals := PublicGlobals(heap[obj].globals);
        (forall i :: 0 <= i < |globals| ==> globals[i].1 in seen && (globals[i].1, depth) in made) &&
        g == Bindings(globals, seen)
      ensures var locals := heap[obj].locals;
        (forall i :: 0 <= i < |locals| ==> locals[i].1 in seen && (locals[i].1, depth) in made) &&
        l == Bindings(locals, seen)
    {
      var o := heap[obj];
      assert Sound(heap, obj);
      var globals := PublicGlobals(o.globals);
      assert forall i :: 0 <= i < |globals| ==> globals[i] in o.globals;
      g := CleanBindings(globals, depth, fuel);
      ghost var s1, n1, m1 := seen, nodes, made;
      l := CleanBindings(o.locals, depth, fuel);
      ExtendsTrans(old(seen), s1, seen);
      PrefixTrans(old(nodes), n1, nodes);
      if !asWritten && depth < 0 {
        UnlimitedTrans(old(made), m1, made);
      }
      BindingsStable(globals, s1, seen);
    }

    method CleanFrame(obj: Id, depth: int, fuel: nat) returns (v: Val)
      requires WellFormed(heap) && obj in heap && heap[obj].Frame? && obj !in seen && fuel > 0
      modifies this
      decreases fuel, 1
      ensures Extends(old(seen), seen) && old(nodes) <= nodes && obj in seen && seen[obj] == v
      ensures env.repr(obj).Raised? ==> seen == old(seen)[obj := v] && nodes == old(nodes)
      ensures FrameMocked(heap, env, obj, fuel, |old(nodes)|, v, seen, nodes)
      // the links get the frame's depth, the bound values one less
      ensures old(made) <= made && (!asWritten && depth < -1 ==> Unlimited(old(made), made))
      ensures FrameFanout(heap, env, obj, depth + 1, fuel, made)
    {
      var o := heap[obj];
      assert Sound(heap, obj);
      match env.repr(obj)
      case Raised(e) =>
        v := Text(FailMessage(e));
        seen := seen[obj := v];
      case Ok(s) =>
        var k := |nodes|;
        nodes := nodes + [Mock(FrameHead(s, o))];  // pre-load to stop recursive cycles
        seen := seen[obj := Ref(k)];
        if fuel == 1 {
          v := Text(FailMessage(RecursionMessage));
          seen := seen[obj := v];
          return;
        }
        ghost var s0, n0 := seen, nodes;
        var c := CleanNested(o.code, depth + 1, fuel - 1);
        ghost var s1, n1, m1 := seen, nodes, made;
        var b := CleanNested(o.back, depth + 1, fuel - 1);
        ExtendsTrans(s0, s1, seen);
        PrefixTrans(n0, n1, nodes);
        ghost var s2, n2, m2 := seen, nodes, made;
        var g, l := CleanScopes(obj, depth, fuel);
        ExtendsTrans(s0, s2, seen);
        PrefixTrans(n0, n2, nodes);
        if !asWritten && depth < -1 {
          UnlimitedTrans(old(made), m1, m2);
          UnlimitedTrans(old(made), m2, made);
        }
        nodes := nodes[k := Mock(FrameHead(s, o)["f_code" := c]["f_back" := b]
                                   ["f_globals" := Mapping(PutAll(g))]["f_locals" := Mapping(PutAll(l))])];
        v := Ref(k);
    }

    method CleanCode(obj: Id, depth: int, fuel: nat) returns (v: Val)
      requires WellFormed(heap) && obj in heap && heap[obj].Code? && obj !in seen && fuel > 0
      modifies this
      decreases fuel, 1
      ensures Extends(old(seen), seen) && old(nodes) <= nodes && obj in seen && seen[obj] == v
      ensures env.repr(obj).Raised? ==> seen == old(seen)[obj := v] && nodes == old(nodes)
      ensures CodeMocked(heap, env, obj, fuel, |old(nodes)|, v, seen, nodes)
      ensures old(made) <= made && (!asWritten && depth < -1 ==> Unlimited(old(made), made))
      ensures env.repr(obj).Ok? && fuel > 1 ==> (heap[obj].consts, ConstsDepthUsed(depth)) in made
      // co_consts is the only nested call: one given depth 0 cuts it to its repr
      ensures env.repr(obj).Ok? && fuel > 1 && ConstsDepthUsed(depth) == 0 && heap[obj].consts !in old(seen) ==>
        seen[heap[obj].consts] == ReprOrFailure(env, heap[obj].consts)
    {
      var o := heap[obj];
      CodeLinks(heap, obj);
      match env.repr(obj)
      case Raised(e) =>
        v := Text(FailMessage(e));
        seen := seen[obj := v];
      case Ok(s) =>
        var k := |nodes|;
        nodes := nodes + [Mock(CodeHead(s, o))];  // pre-load to stop recursive cycles
        seen := seen[obj := Ref(k)];
        if fuel == 1 {
          v := Text(FailMessage(RecursionMessage));
          seen := seen[obj := v];
          return;
        }
        var c := CleanNested(o.consts, ConstsDepthUsed(depth), fuel - 1);
        nodes := nodes[k := Mock(CodeHead(s, o)["co_consts" := c]["co_filename" := Text(env.abspath(o.filename))])];
        v := Ref(k);
    }

    /** A list, tuple or set: the same kind of container over the cleaned
        elements. `vals` are the elements' substitutes in order. */
    method CleanContainer(obj: Id, depth: int, fuel: nat) returns (v: Val, ghost vals: seq<Val>)
      requires WellFormed(heap) && obj in heap && heap[obj].Container? && obj !in seen && fuel > 0
      modifies this
      decreases fuel, 1
      ensures Extends(old(seen), seen) && old(nodes) <= nodes && obj in seen && seen[obj] == v
      ensures fuel == 1 && heap[obj].elems != [] ==>
        v == Text(FailMessage(RecursionMessage)) && seen == old(seen)[obj := v] && nodes == old(nodes)
      ensures fuel > 1 || heap[obj].elems == [] ==>
        v == Collection(heap[obj].kind, Assemble(heap[obj].kind, vals)) && |vals| == |heap[obj].elems|
      // an element that is not the container itself reads as its recorded substitute
      ensures fuel > 1 || heap[obj].elems == [] ==>
        forall j :: 0 <= j < |vals| && heap[obj].elems[j] != obj ==>
          heap[obj].elems[j] in seen && vals[j] == seen[heap[obj].elems[j]]
      ensures ContainerCleaned(heap, obj, fuel, v, seen)
      // every element is cleaned with the container's depth
      ensures old(made) <= made && (!asWritten && depth < -1 ==> Unlimited(old(made), made))
      ensures ContainerFanout(heap, obj, depth + 1, fuel, made)
    {
      var o := heap[obj];
      assert Sound(heap, obj);
      vals := [];
      if fuel == 1 && o.elems != [] {
        v := Text(FailMessage(RecursionMessage));
        seen := seen[obj := v];
        return;
      }
      var results: seq<Val> := [];
      for i := 0 to |o.elems|
        invariant Extends(old(seen), seen) && old(nodes) <= nodes
        invariant |results| == i
        invariant forall j :: 0 <= j < i ==> o.elems[j] in seen && results[j] == seen[o.elems[j]]
        invariant old(made) <= made && (!asWritten && depth < -1 ==> Unlimited(old(made), made))
        invariant forall j :: 0 <= j < i ==> (o.elems[j], depth) in made
      {
        ghost var before, nb, mb := seen, nodes, made;
        var r := CleanNested(o.elems[i], depth, fuel - 1);
        if !asWritten && depth < -1 {
          UnlimitedTrans(old(made), mb, made);
        }
        ExtendsTrans(old(seen), before, seen);
        PrefixTrans(old(nodes), nb, nodes);
        results := results + [r];
      }
      vals := results;
      v := Collection(o.kind, Assemble(o.kind, results));
      seen := seen[obj := v];
    }

    /** A dict: keys and values cleaned, stored as a dict comprehension does.
        `pairs` are the cleaned (key, value) pairs in order. */
    method CleanDict(obj: Id, depth: int, fuel: nat) returns (v: Val, ghost pairs: seq<(Val, Val)>)
      requires WellFormed(heap) && obj in heap && heap[obj].Dict? && obj !in seen && fuel > 0
      modifies this
      decreases fuel, 1
      ensures Extends(old(seen), seen) && old(nodes) <= nodes && obj in seen && seen[obj] == v
      ensures fuel == 1 && heap[obj].items != [] ==>
        v == Text(FailMessage(RecursionMessage)) && seen == old(seen)[obj := v] && nodes == old(nodes)
      ensures fuel > 1 || heap[obj].items == [] ==>
        v == Mapping(PutAll(pairs)) && |pairs| == |heap[obj].items|
      ensures fuel > 1 || heap[obj].items == [] ==>
        forall j :: 0 <= j < |pairs| && heap[obj].items[j].0 != obj && heap[obj].items[j].1 != obj ==>
          heap[obj].items[j].0 in seen && heap[obj].items[j].1 in seen &&
          pairs[j] == (seen[heap[obj].items[j].0], seen[heap[obj].items[j].1])
      ensures DictCleaned(heap, obj, fuel, v, seen)
      // every key and value is cleaned with the dict's depth
      ensures old(made) <= made && (!asWritten && depth < -1 ==> Unlimited(old(made), made))
      ensures DictFanout(heap, obj, depth + 1, fuel, made)
    {
      var o := heap[obj];
      assert Sound(heap, obj);
      pairs := [];
      if fuel == 1 && o.items != [] {
        v := Text(FailMessage(RecursionMessage));
        seen := seen[obj := v];
        return;
      }
      var results: seq<(Val, Val)> := [];
      for i := 0 to |o.items|
        invariant Extends(old(seen), seen) && old(nodes) <= nodes
        invariant |results| == i
        invariant forall j :: 0 <= j < i ==>
          o.items[j].0 in seen && o.items[j].1 in seen && results[j] == (seen[o.items[j].0], seen[o.items[j].1])
        invariant old(made) <= made && (!asWritten && depth < -1 ==> Unlimited(old(made), made))
        invariant forall j :: 0 <= j < i ==> (o.items[j].0, depth) in made && (o.items[j].1, depth) in made
      {
        ghost var before, nb, mb := seen, nodes, made;
        var key := CleanNested(o.items[i].0, depth, fuel - 1);
        ghost var mid, nm, mm := seen, nodes, made;
        var val := CleanNested(o.items[i].1, depth, fuel - 1);
        if !asWritten && depth < -1 {
          UnlimitedTrans(old(made), mb, mm);
          UnlimitedTrans(old(made), mm, made);
        }
        ExtendsTrans(before, mid, seen);
        PrefixTrans(nb, nm, nodes);
        ExtendsTrans(old(seen), before, seen);
        PrefixTrans(old(nodes), nb, nodes);
        results := results + [(key, val)];
      }
      pairs := results;
      v := Mapping(PutAll(results));
      seen := seen[obj := v];
      PutAllKeys(results);
      forall j | 0 <= j < |o.items| && o.items[j].0 != obj && o.items[j].1 != obj
        ensures seen[o.items[j].0] in Keys(v.items)
      {
        assert results[j].0 == seen[o.items[j].0];
      }
    }

    /** Any other object: a mock over its attributes whose names do not start
        with "__", or its repr when building the mock fails. */
    method CleanObject(obj: Id, depth: int, fuel: nat) returns (v: Val)
      requires WellFormed(heap) && obj in heap && Reflective(heap[obj]) && obj !in seen && fuel > 0
      modifies this
      decreases fuel, 1
      ensures Extends(old(seen), seen) && old(nodes) <= nodes && obj in seen && seen[obj] == v
      // repr raises in the mock's dict and again in the `except`: the outer handler reports it
      ensures env.repr(obj).Raised? ==> seen == old(seen)[obj := v] && nodes == old(nodes)
      ensures ObjectMocked(heap, env, obj, fuel, |old(nodes)|, v, seen, nodes)
      // the attributes read are cleaned with the object's depth
      ensures old(made) <= made && (!asWritten && depth < -1 ==> Unlimited(old(made), made))
      ensures AttrsFanout(env, pickler, obj, heap[obj], depth + 1, fuel, made)
    {
      var o := heap[obj];
      match env.repr(obj)
      case Raised(e) =>
        v := Text(FailMessage(e));
        seen := seen[obj := v];
      case Ok(s) =>
        var k := |nodes|;
        nodes := nodes + [Mock(ObjectHead(s))];  // pre-load to stop recursive cycles
        seen := seen[obj := Ref(k)];
        var dir := Dir(o);
        if dir.None? {
          v := Text(s);
          seen := seen[obj := v];
          return;
        }
        var attrs := PublicAttrs(dir.value);
        if fuel == 1 && attrs != [] {
          // the nested call for the first attribute exceeds the recursion limit
          v := Text(s);
          seen := seen[obj := v];
          return;
        }
        AttrsLinks(heap, obj);
        assert forall i :: 0 <= i < |attrs| ==> attrs[i] in dir.value;
        var complete, fields := MockAttributes(s, attrs, depth, fuel);
        nodes := nodes[k := Mock(fields)];
        if complete {
          v := Ref(k);
        } else {
          v := Text(s);
          seen := seen[obj := v];
        }
    }

    /** `dct.update((at, _clean(getattr(obj, at), ...)) for at in attrs)` on the
        dict of a mock whose repr is `s`: `fields` is that dict afterwards.
        `complete` is false when a `getattr` raises, which leaves the
        attributes read so far in the dict. */
    method MockAttributes(s: string, attrs: seq<Attr>, depth: int, fuel: nat) returns (complete: bool, fields: map<string, Val>)
      requires WellFormed(heap) && fuel > 0 && (fuel > 1 || attrs == [])
      requires forall i :: 0 <= i < |attrs| && attrs[i].value.Some? ==> attrs[i].value.value in heap
      modifies this
      decreases fuel - 1, 5
      ensures Extends(old(seen), seen) && old(nodes) <= nodes
      ensures complete <==> AllReadable(attrs)
      ensures complete ==>
        (forall i :: 0 <= i < |attrs| ==> attrs[i].value.value in seen) &&
        fields == Updated(ObjectHead(s), AttrPairs(attrs, seen))
      // the attributes up to the first unreadable one are cleaned with `depth`
      ensures old(made) <= made && (!asWritten && depth < 0 ==> Unlimited(old(made), made))
      ensures forall j :: 0 <= j < ReadablePrefix(attrs) ==> (attrs[j].value.value, depth) in made
    {
      fields := ObjectHead(s);
      for i := 0 to |attrs|
        invariant Extends(old(seen), seen) && old(nodes) <= nodes
        invariant forall j :: 0 <= j < i ==> attrs[j].value.Some? && attrs[j].value.value in seen
        invariant fields == Updated(ObjectHead(s), AttrPairs(attrs[..i], seen))
        invariant old(made) <= made && (!asWritten && depth < 0 ==> Unlimited(old(made), made))
        invariant forall j :: 0 <= j < i ==> (attrs[j].value.value, depth) in made
      {
        if attrs[i].value.None? {
          return false, fields;
        }
        ghost var before, nb, mb := seen, nodes, made;
        var r := CleanNested(attrs[i].value.value, depth, fuel - 1);
        if !asWritten && depth < 0 {
          UnlimitedTrans(old(made), mb, made);
        }
        ExtendsTrans(old(seen), before, seen);
        PrefixTrans(old(nodes), nb, nodes);
        AttrPairsStable(attrs[..i], before, seen);
        UpdatedAttrStep(ObjectHead(s), attrs, i, seen);
        fields := fields[attrs[i].name := r];
      }
      assert attrs[..|attrs|] == attrs;
      complete := true;
    }
  }

  /** keepTrace.py:163-169 as written, for a code object reached with depth
      -1, which is documented to mean no limit: its co_consts is cleaned with
      depth 0, so a tuple of constants not cleaned before is cut to its repr. */
  method ConstsCutAsWritten(heap: map<Id, Obj>, env: Env, pickler: bool, code: Id, fuel: nat) returns (node: Node)
    requires WellFormed(heap) && code in heap && heap[code].Code? && env.repr(code).Ok? && fuel > 1
    ensures node.Mock? && "co_consts" in node.fields
    ensures node.fields["co_consts"] == ReprOrFailure(env, heap[code].consts)
  {
    var cleaner := new Cleaner(heap, env, pickler, true);
    var v := cleaner.CleanCode(code, -1 - 1, fuel);
    node := cleaner.nodes[0];
  }

  /** `_snapshot_source_files` run on a substitute: a `_call` mock and a
      non-empty str are truthy and have no `tb_frame`, so the first step of
      the walk raises; an empty str is falsy and gives an empty snapshot. */
  function SnapshotOfSubstitute(v: Val): Outcome<map<string, string>> {
    if v == Text("") then Ok(map[])
    else if v.Text? then Raised("'str' object has no attribute 'tb_frame'")
    else Raised("'_call' object has no attribute 'tb_frame'")
  }

  /** `prepare_traceback` as written: the source files are looked up on the
      CLEANED traceback. Whenever the source is to be included, reducing a
      traceback fails, except for the one case of a depth of 0 and an empty
      repr. */
  method PrepareAsWritten(heap: map<Id, Obj>, env: Env, pickler: bool, depth: int, includeSource: bool, trace: Id, fuel: nat)
    returns (r: Outcome<Reduction>, nodes: seq<Node>)
    requires WellFormed(heap) && trace in heap && heap[trace].Traceback?
    ensures includeSource ==> (r.Ok? <==> fuel > 0 && depth == 0 && env.repr(trace) == Ok(""))
    ensures !includeSource ==> (r.Ok? <==> fuel > 0)
  {
    var cleaner := new Cleaner(heap, env, pickler, true);
    var cleaned := cleaner.Clean(trace, depth, fuel);
    nodes := cleaner.nodes;
    if cleaned.Raised? {
      return Raised(cleaned.error), nodes;
    }
    if includeSource {
      var files := SnapshotOfSubstitute(cleaned.value);
      if files.Raised? {
        return Raised(files.error), nodes;
      }
      return Ok(Restore(cleaned.value, files.value)), nodes;
    }
    return Ok(Identity(cleaned.value)), nodes;
  }

  /** `prepare_traceback` with the snapshot taken from the original traceback
      before it is cleaned, as `pydump` does. Reduction then fails only for
      lack of stack, the snapshot covers every frame of the traceback, and the
      substitute is the traceback's mock, or its repr at depth 0, or the
      failure text when its repr raises or the stack runs out at it. `calls`
      are the `_clean` calls made, each with its depth: co_consts gets the
      depth `ConstsDepth` gives, so with a negative depth no call is given
      depth 0 and nothing is cut to its repr. */
  method Prepare(heap: map<Id, Obj>, env: Env, pickler: bool, depth: int, includeSource: bool, trace: Id, fuel: nat)
    returns (r: Outcome<Reduction>, nodes: seq<Node>, ghost calls: set<(Id, int)>)
    requires WellFormed(heap) && trace in heap && heap[trace].Traceback?
    ensures r.Ok? <==> fuel > 0
    ensures r.Ok? && includeSource ==>
      r.value.Restore? && r.value.files == Collect(env, heap, map[], VisitOrder(heap, trace))
    ensures r.Ok? && !includeSource ==> r.value.Identity?
    ensures r.Ok? && depth == 0 ==> r.value.trace == ReprOrFailure(env, trace) && nodes == []
    ensures r.Ok? && depth != 0 ==>
      match env.repr(trace)
      case Raised(e) => r.value.trace == Text(FailMessage(e))
      case Ok(_) =>
        if fuel == 1 then r.value.trace == Text(FailMessage(RecursionMessage))
        else r.value.trace == Ref(0) && |nodes| > 0
    // slot 0 is the traceback's mock: its repr, the TracebackType marker and the `tb_` attributes
    ensures r.Ok? && depth != 0 && env.repr(trace).Ok? && fuel > 1 ==>
      nodes[0].Mock? && nodes[0].fields.Keys == TracebackHead(env.repr(trace).value, heap[trace]).Keys &&
      "_repr" in nodes[0].fields && nodes[0].fields["_repr"] == Text(env.repr(trace).value) &&
      "_mock" in nodes[0].fields && nodes[0].fields["_mock"] == FromImport("types", "TracebackType")
    ensures fuel > 0 ==> (trace, depth) in calls
    ensures depth < 0 ==> forall c :: c in calls ==> c.1 < 0
  {
    var files, _ := Snapshot(heap, env, trace);
    var cleaner := new Cleaner(heap, env, pickler, false);
    var cleaned := cleaner.Clean(trace, depth, fuel);
    nodes, calls := cleaner.nodes, cleaner.made;
    if cleaned.Raised? {
      return Raised(cleaned.error), nodes, calls;
    }
    if depth != 0 && env.repr(trace).Ok? && fuel > 1 {
      assert TracebackMocked(heap, env, trace, fuel, 0, cleaned.value, cleaner.seen, nodes);
      assert "_repr"[..3][0] != "tb_"[0] && "_mock"[..3][0] != "tb_"[0];
    }
    if includeSource {
      return Ok(Restore(cleaned.value, files)), nodes, calls;
    }
    return Ok(Identity(cleaned.value)), nodes, calls;
  }
}
