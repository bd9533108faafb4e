/** The substitute graph a sanitizer produces in place of the live objects,
    and the dictionary and set semantics used to build it. */
module Substitute {
  import opened Wrappers
  import opened Heap

  /** A sanitized value. `Ref` points into the arena of mocks a traversal
      builds (object identity); every other form is a plain value. */
  datatype Val =
    | Text(s: string)                          // a str: a repr, an error description, an absolute path
    | Same(id: Id)                             // the original object, kept as it is
    | Stub(message: string)                    // a stand-in function that raises UserWarning(message)
    | Import(name: string)                     // _import(name): re-imported when loaded
    | FromImport(source: string, name: string) // _from_import(module, name)
    | BaseObject                               // the builtin `object`
    | Ref(node: nat)                           // a `_call` mock built during this traversal
    | Collection(kind: SeqKind, elems: seq<Val>)
    | Mapping(items: seq<(Val, Val)>)          // a dict, in insertion order

  /** A `_call` object of the arena: pydump's `_call(None)` placeholder before
      it is re-initialised, or `_call(_mock, dct)` with its attribute dict. */
  datatype Node = Placeholder | Mock(fields: map<string, Val>)

  /** What a traceback reduces to for pickling: the restoring function with
      `(trace, files)`, or the identity function with `(trace,)`. */
  datatype Reduction =
    | Restore(trace: Val, files: map<string, string>)
    | Identity(trace: Val)

  const RecursionMessage := "maximum recursion depth exceeded"

  /** The text `_clean` records when classifying an object raised `err`. */
  function FailMessage(err: string): string {
    "Failed to serialize object: " + err
  }

  /** Calling a stand-in function, with any arguments, raises
      UserWarning(message). */
  function CallStub(stub: Val, args: seq<Val>): Outcome<Val>
    requires stub.Stub?
  {
    Raised(stub.message)
  }

  /** Every entry of `a` is still in `b`, bound to the same substitute. */
  ghost predicate Extends<K>(a: map<K, Val>, b: map<K, Val>) {
    forall x :: x in a ==> x in b && b[x] == a[x]
  }

  lemma ExtendsTrans<K>(a: map<K, Val>, b: map<K, Val>, c: map<K, Val>)
    requires Extends(a, b) && Extends(b, c)
    ensures Extends(a, c)
  {
  }

  lemma PrefixTrans<T>(a: seq<T>, b: seq<T>, c: seq<T>)
    requires a <= b && b <= c
    ensures a <= c
  {
  }

  /** The attributes `dir()` lists with the given prefix, as raw originals. */
  function Raw(attrs: map<string, Id>, prefix: string): map<string, Val> {
    map a | a in attrs && StartsWith(a, prefix) :: Same(attrs[a])
  }

  /** The dict comprehension `{k: seen-value of v for k, v in bindings}`'s pairs. */
  function Bindings(bs: seq<(string, Id)>, seen: map<Id, Val>): seq<(Val, Val)>
    requires forall i :: 0 <= i < |bs| ==> bs[i].1 in seen
  {
    seq(|bs|, i requires 0 <= i < |bs| => (Text(bs[i].0), seen[bs[i].1]))
  }

  /** The attributes read by `getattr`, each bound to its substitute. */
  function AttrPairs(attrs: seq<Attr>, seen: map<Id, Val>): seq<(string, Val)>
    requires forall i :: 0 <= i < |attrs| ==> attrs[i].value.Some? && attrs[i].value.value in seen
  {
    seq(|attrs|, i requires 0 <= i < |attrs| => (attrs[i].name, seen[attrs[i].value.value]))
  }

  // ----- dict semantics -----

  function Keys(items: seq<(Val, Val)>): set<Val> {
    set i | 0 <= i < |items| :: items[i].0
  }

  ghost predicate UniqueKeys(items: seq<(Val, Val)>) {
    forall i, j :: 0 <= i < j < |items| ==> items[i].0 != items[j].0
  }

  /** `d[k]`: the value bound to the first entry with key k. */
  function Lookup(items: seq<(Val, Val)>, k: Val): Option<Val> {
    if items == [] then None
    else if items[0].0 == k then Some(items[0].1)
    else Lookup(items[1..], k)
  }

  lemma KeysCons(p: (Val, Val), items: seq<(Val, Val)>)
    ensures Keys([p] + items) == {p.0} + Keys(items)
  {
    var s := [p] + items;
    forall x | x in Keys(s) ensures x in {p.0} + Keys(items) {
      var i :| 0 <= i < |s| && s[i].0 == x;
      if i > 0 { assert items[i - 1].0 == x; }
    }
    forall x | x in Keys(items) ensures x in Keys(s) {
      var i :| 0 <= i < |items| && items[i].0 == x;
      assert s[i + 1].0 == x;
    }
    assert s[0].0 == p.0;
  }

  /** `d[k] = v`: an existing key keeps its position and takes the new value;
      a new key goes to the end. */
  function Put(items: seq<(Val, Val)>, k: Val, v: Val): seq<(Val, Val)> {
    if items == [] then [(k, v)]
    else if items[0].0 == k then [(k, v)] + items[1..]
    else [items[0]] + Put(items[1..], k, v)
  }

  /** Storing adds the key, and a new key is appended with its value. */
  lemma {:induction false} PutKeys(items: seq<(Val, Val)>, k: Val, v: Val)
    ensures Keys(Put(items, k, v)) == Keys(items) + {k}
    ensures k !in Keys(items) ==> Put(items, k, v) == items + [(k, v)]
  {
    if items == [] {
      assert [(k, v)][0].0 == k;
    } else {
      assert items == [items[0]] + items[1..];
      KeysCons(items[0], items[1..]);
      if items[0].0 == k {
        KeysCons((k, v), items[1..]);
      } else {
        PutKeys(items[1..], k, v);
        KeysCons(items[0], Put(items[1..], k, v));
      }
    }
  }

  /** After `d[k] = v`, `d[k]` is v and every other key reads as before. */
  lemma {:induction false} PutLookup(items: seq<(Val, Val)>, k: Val, v: Val, k': Val)
    ensures Lookup(Put(items, k, v), k') == if k' == k then Some(v) else Lookup(items, k')
  {
    if items != [] && items[0].0 != k {
      PutLookup(items[1..], k, v, k');
    }
  }

  /** Storing into a dict never duplicates a key. */
  lemma {:induction false} PutUnique(items: seq<(Val, Val)>, k: Val, v: Val)
    requires UniqueKeys(items)
    ensures UniqueKeys(Put(items, k, v))
  {
    if items != [] && items[0].0 != k {
      PutUnique(items[1..], k, v);
      PutKeys(items[1..], k, v);
      var rest := Put(items[1..], k, v);
      assert Put(items, k, v) == [items[0]] + rest;
      forall x | x in Keys(items[1..]) ensures x != items[0].0 {
        var i :| 0 <= i < |items[1..]| && items[1..][i].0 == x;
        assert items[i + 1].0 == x;
      }
      forall j | 0 <= j < |rest| ensures rest[j].0 != items[0].0 {
        assert rest[j].0 in Keys(rest);
      }
    }
  }

  /** A dict comprehension: the pairs are stored one after another. */
  function PutAll(pairs: seq<(Val, Val)>): seq<(Val, Val)> {
    if pairs == [] then []
    else Put(PutAll(pairs[..|pairs| - 1]), pairs[|pairs| - 1].0, pairs[|pairs| - 1].1)
  }

  /** A dict built by a comprehension has each key once, and exactly the keys stored. */
  lemma {:induction false} PutAllKeys(pairs: seq<(Val, Val)>)
    ensures UniqueKeys(PutAll(pairs))
    ensures Keys(PutAll(pairs)) == set i | 0 <= i < |pairs| :: pairs[i].0
  {
    if pairs != [] {
      var n := |pairs| - 1;
      PutAllKeys(pairs[..n]);
      PutUnique(PutAll(pairs[..n]), pairs[n].0, pairs[n].1);
      PutKeys(PutAll(pairs[..n]), pairs[n].0, pairs[n].1);
      assert (set i | 0 <= i < |pairs| :: pairs[i].0) == (set i | 0 <= i < n :: pairs[..n][i].0) + {pairs[n].0};
    }
  }

  /** Of several pairs with the same key, the last one decides the value. */
  lemma {:induction false} PutAllLastWins(pairs: seq<(Val, Val)>, i: nat)
    requires i < |pairs|
    requires forall j :: i < j < |pairs| ==> pairs[j].0 != pairs[i].0
    ensures Lookup(PutAll(pairs), pairs[i].0) == Some(pairs[i].1)
  {
    var n := |pairs| - 1;
    var init := pairs[..n];
    PutLookup(PutAll(init), pairs[n].0, pairs[n].1, pairs[i].0);
    if i < n {
      assert init[i] == pairs[i];
      PutAllLastWins(init, i);
    }
  }

  // ----- set semantics -----

  ghost predicate NoDuplicates(xs: seq<Val>) {
    forall i, j :: 0 <= i < j < |xs| ==> xs[i] != xs[j]
  }

  /** `set(gen)`: each element is added unless an equal one is already there. */
  function AddAll(vals: seq<Val>): (r: seq<Val>)
    ensures NoDuplicates(r)
    ensures forall x :: x in r <==> x in vals
  {
    if vals == [] then []
    else
      var n := |vals| - 1;
      var s := AddAll(vals[..n]);
      assert forall x :: x in vals <==> x in vals[..n] || x == vals[n];
      if vals[n] in s then s else s + [vals[n]]
  }

  /** `obj_type(gen)` for list, tuple and set. */
  function Assemble(kind: SeqKind, vals: seq<Val>): seq<Val> {
    if kind == SetKind then AddAll(vals) else vals
  }

  // ----- attribute dicts -----

  /** `dct.update(pairs)`: later pairs overwrite earlier ones. */
  function Updated(m: map<string, Val>, pairs: seq<(string, Val)>): map<string, Val> {
    if pairs == [] then m
    else Updated(m, pairs[..|pairs| - 1])[pairs[|pairs| - 1].0 := pairs[|pairs| - 1].1]
  }

  /** The update adds exactly the named attributes and leaves the others alone. */
  lemma {:induction false} UpdatedKeys(m: map<string, Val>, pairs: seq<(string, Val)>)
    ensures Updated(m, pairs).Keys == m.Keys + set i | 0 <= i < |pairs| :: pairs[i].0
    ensures forall k :: k in m && (forall i :: 0 <= i < |pairs| ==> pairs[i].0 != k) ==> Updated(m, pairs)[k] == m[k]
  {
    if pairs != [] {
      var n := |pairs| - 1;
      UpdatedKeys(m, pairs[..n]);
      assert (set i | 0 <= i < |pairs| :: pairs[i].0) == (set i | 0 <= i < n :: pairs[..n][i].0) + {pairs[n].0};
    }
  }

  /** Reading one more attribute performs one more assignment. */
  lemma UpdatedAttrStep(m: map<string, Val>, attrs: seq<Attr>, i: nat, seen: map<Id, Val>)
    requires i < |attrs|
    requires forall j :: 0 <= j <= i ==> attrs[j].value.Some? && attrs[j].value.value in seen
    ensures Updated(m, AttrPairs(attrs[..i + 1], seen))
         == Updated(m, AttrPairs(attrs[..i], seen))[attrs[i].name := seen[attrs[i].value.value]]
  {
    var pairs := AttrPairs(attrs[..i + 1], seen);
    assert pairs[..i] == AttrPairs(attrs[..i], seen);
  }

  /** The last pair naming an attribute decides its value. */
  lemma {:induction false} UpdatedLastWins(m: map<string, Val>, pairs: seq<(string, Val)>, i: nat)
    requires i < |pairs|
    requires forall j :: i < j < |pairs| ==> pairs[j].0 != pairs[i].0
    ensures pairs[i].0 in Updated(m, pairs) && Updated(m, pairs)[pairs[i].0] == pairs[i].1
  {
    var n := |pairs| - 1;
    if i < n {
      UpdatedLastWins(m, pairs[..n], i);
    }
  }
}
