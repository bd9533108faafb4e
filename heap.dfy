/** The live interpreter state both sanitizers walk: an abstract heap of
    Python objects, and the environment services (repr, abspath, the pickle
    trial, the file system, hashing) the sanitizers consult but never
    implement. */
module Heap {
  import opened Wrappers

  /** Object identity, `id(obj)`. Objects are numbered in allocation order. */
  type Id = nat

  /** The three sequence types SEQ_TYPES names: list, tuple and set. */
  datatype SeqKind = ListKind | TupleKind | SetKind

  /** One name listed by `dir(obj)`; `value` is None when `getattr(obj, name)` raises. */
  datatype Attr = Attr(name: string, value: Option<Id>)

  /** The kinds of object the sanitizers tell apart. `attrs` of a traceback,
      frame or code object holds the attributes `dir()` lists besides the
      ones the record names (tb_lasti, tb_lineno, f_lineno, co_name, ...);
      `dir` of a reflective object is None when `dir()` itself raises. */
  datatype Obj =
    | NoneObj
    | Scalar                  // a value of a type the pickler dispatches natively (int, str, bytes, ...)
    | Traceback(frame: Id, next: Id, attrs: map<string, Id>)
    | Frame(code: Id, back: Id, globals: seq<(string, Id)>, locals: seq<(string, Id)>, attrs: map<string, Id>)
    | Code(filename: string, consts: Id, attrs: map<string, Id>)
    | Container(kind: SeqKind, elems: seq<Id>)
    | Dict(items: seq<(Id, Id)>)
    | Function                // FunctionType, MethodType, LambdaType or BuiltinFunctionType
    | Module(name: string, file: Option<string>, dir: Option<seq<Attr>>)
    | Class(dir: Option<seq<Attr>>)
    | Instance(dir: Option<seq<Attr>>)

  /** Services of the running interpreter, left uninterpreted. */
  datatype Env = Env(
    repr: Id -> Outcome<string>,      // repr(obj), or what it raised
    abspath: string -> string,        // os.path.abspath
    roundTrips: Id -> bool,           // pickler.loads(pickler.dumps(obj)) succeeds
    stdlibDir: string,                // os.path.dirname(types.__file__)
    disk: map<string, string>,        // files open() can read; any other path raises IOError
    hashKey: Id -> Option<nat>)       // equality class of a hashable object; None when hash() raises TypeError

  /** A kind of object whose attributes are read through `dir()` and `getattr()`. */
  predicate Reflective(o: Obj) {
    o.Module? || o.Class? || o.Instance?
  }

  /** The three kinds both sanitizers turn into mocks of their own type. */
  predicate IsStructural(o: Obj) {
    o.Traceback? || o.Frame? || o.Code?
  }

  function Dir(o: Obj): Option<seq<Attr>>
    requires Reflective(o)
  {
    match o
    case Module(_, _, dir) => dir
    case Class(dir) => dir
    case Instance(dir) => dir
  }

  /** Every listed attribute can be read with `getattr`. */
  predicate AllReadable(attrs: seq<Attr>) {
    forall i :: 0 <= i < |attrs| ==> attrs[i].value.Some?
  }

  /** How many of the listed attributes, from the first, `getattr` reads
      before the first one that raises. */
  function ReadablePrefix(attrs: seq<Attr>): (n: nat)
    ensures n <= |attrs| && (forall j :: 0 <= j < n ==> attrs[j].value.Some?)
    ensures n < |attrs| ==> attrs[n].value.None?
  {
    if attrs == [] || attrs[0].value.None? then 0 else 1 + ReadablePrefix(attrs[1..])
  }

  predicate StartsWith(s: string, prefix: string) {
    |prefix| <= |s| && s[..|prefix|] == prefix
  }

  /** Every id an object refers to, without its structural links. */
  ghost predicate RefsIn(heap: map<Id, Obj>, o: Obj) {
    match o
    case Traceback(frame, next, attrs) => frame in heap && next in heap && attrs.Values <= heap.Keys
    case Frame(code, back, globals, locals, attrs) =>
      && code in heap && back in heap && attrs.Values <= heap.Keys
      && (forall i :: 0 <= i < |globals| ==> globals[i].1 in heap)
      && (forall i :: 0 <= i < |locals| ==> locals[i].1 in heap)
    case Code(_, consts, attrs) => consts in heap && attrs.Values <= heap.Keys
    case Container(_, elems) => forall i :: 0 <= i < |elems| ==> elems[i] in heap
    case Dict(items) => forall i :: 0 <= i < |items| ==> items[i].0 in heap && items[i].1 in heap
    case Module(_, _, dir) => DirIn(heap, dir)
    case Class(dir) => DirIn(heap, dir)
    case Instance(dir) => DirIn(heap, dir)
    case _ => true
  }

  ghost predicate DirIn(heap: map<Id, Obj>, dir: Option<seq<Attr>>) {
    dir.Some? ==> forall i :: 0 <= i < |dir.value| ==> dir.value[i].value.Some? ==> dir.value[i].value.value in heap
  }

  /** What the interpreter guarantees of the typed links: tb_frame is a frame,
      tb_next a traceback or None, f_code a code object, f_back a frame or
      None, co_consts a tuple; a traceback and a frame only ever link to an
      older object. */
  ghost predicate Linked(heap: map<Id, Obj>, id: Id, o: Obj)
    requires RefsIn(heap, o)
  {
    match o
    case Traceback(frame, next, _) =>
      heap[frame].Frame? && (heap[next].Traceback? || heap[next].NoneObj?) && next < id
    case Frame(code, back, _, _, _) =>
      heap[code].Code? && (heap[back].Frame? || heap[back].NoneObj?) && back < id
    case Code(_, consts, _) => heap[consts].Container? && heap[consts].kind == TupleKind
    case _ => true
  }

  /** The object at `id` refers only to objects of the heap, through links of the right types. */
  ghost predicate Sound(heap: map<Id, Obj>, id: Id)
    requires id in heap
  {
    RefsIn(heap, heap[id]) && Linked(heap, id, heap[id])
  }

  /** A closed, well-typed heap. The facts about one object are obtained by
      mentioning `Sound(heap, id)`, which keeps the solver from chasing links. */
  ghost predicate WellFormed(heap: map<Id, Obj>) {
    forall id {:trigger Sound(heap, id)} | id in heap :: Sound(heap, id)
  }

  /** The links of a traceback, frame or code object are objects of the heap,
      of the kinds `Linked` names. */
  lemma TracebackLinks(heap: map<Id, Obj>, obj: Id)
    requires WellFormed(heap) && obj in heap && heap[obj].Traceback?
    ensures heap[obj].frame in heap && heap[obj].next in heap && heap[heap[obj].frame].Frame?
  {
    assert Sound(heap, obj);
  }

  lemma FrameLinks(heap: map<Id, Obj>, obj: Id)
    requires WellFormed(heap) && obj in heap && heap[obj].Frame?
    ensures heap[obj].code in heap && heap[obj].back in heap
  {
    assert Sound(heap, obj);
  }

  lemma CodeLinks(heap: map<Id, Obj>, obj: Id)
    requires WellFormed(heap) && obj in heap && heap[obj].Code?
    ensures heap[obj].consts in heap && heap[heap[obj].consts].Container?
  {
    assert Sound(heap, obj);
  }

  /** Every readable attribute `dir()` lists is an object of the heap. */
  lemma AttrsLinks(heap: map<Id, Obj>, obj: Id)
    requires WellFormed(heap) && obj in heap && Reflective(heap[obj]) && Dir(heap[obj]).Some?
    ensures forall a :: a in Dir(heap[obj]).value && a.value.Some? ==> a.value.value in heap
  {
    assert Sound(heap, obj);
  }
}
