/**
  The `Resources` container: a mutable wrapper around one value, with
  dot-path writes, `array_merge`, offset access, the per-record traversal
  `mapUnit` and the closure-resolving walk `mapExecClosure`.
 */
module Containers {
  import opened Wrappers
  import opened PhpArrays
  import opened DotPath

  /* ---------------- offset and property reads ---------------- */

  /** Whether PHP sees the value as an object (`is_object`). */
  predicate IsObject(v: Value) {
    v.Collection? || v.Paginator? || v.Obj? || v.Remover?
  }

  /**
    `$value[$k]` for a key that exists: the entry under the key, or the item
    at an integer position of a Collection or a paginator (both implement
    ArrayAccess over their items); None for anything else.
   */
  function Offset(v: Value, k: Key): Option<Value> {
    match v
    case Arr(es) => Lookup(es, k)
    case Collection(items) => if k.IntKey? && 0 <= k.n < |items| then Some(items[k.n]) else None
    case Paginator(items, _, _, _, _) => if k.IntKey? && 0 <= k.n < |items| then Some(items[k.n]) else None
    case _ => None
  }

  /**
    `Resources::__get($name)`: on an object its property or null; otherwise the
    entry under the name (cast as an array offset) or null. `None` is the
    `Error` PHP raises when the wrapped object is a closure, which can have no
    properties, not even for the null-coalescing read.
   */
  function PropertyOf(v: Value, name: string): (r: Option<Value>)
    ensures r.None? <==> v.Remover?
    ensures v.Obj? && name in v.props ==> r == Some(v.props[name])
    ensures IsObject(v) && !v.Remover? && !(v.Obj? && name in v.props) ==> r == Some(Null)
    ensures !IsObject(v) && Offset(v, KeyOf(name)).Some? ==> r == Offset(v, KeyOf(name))
    ensures !IsObject(v) && Offset(v, KeyOf(name)).None? ==> r == Some(Null)
  {
    if v.Remover? then None
    else if IsObject(v) then
      Some(if v.Obj? && name in v.props then v.props[name] else Null)
    else
      match Offset(v, KeyOf(name))
      case Some(x) => Some(x)
      case None => Some(Null)
  }

  /** A property written through `offsetSet` reads back through `__get`. */
  lemma PropertyOfAfterSet(es: seq<Entry>, name: string, x: Value)
    ensures PropertyOf(Arr(Put(es, KeyOf(name), x)), name) == Some(x)
  {
    PutSame(es, KeyOf(name), x);
  }

  /** A property removed through `offsetUnset` reads as null through `__get`. */
  lemma PropertyOfAfterUnset(es: seq<Entry>, name: string)
    ensures PropertyOf(Arr(Remove(es, KeyOf(name))), name) == Some(Null)
  {
    RemoveSame(es, KeyOf(name));
  }

  /** On an array, `__get` is null exactly for names that are absent or hold null. */
  lemma PropertyOfArray(es: seq<Entry>, name: string)
    ensures PropertyOf(Arr(es), name) == Some(Null) <==> !HasKey(es, KeyOf(name)) || Lookup(es, KeyOf(name)) == Some(Null)
  {
    LookupHasKey(es, KeyOf(name));
  }

  /* ---------------- mapUnit ---------------- */

  /** An array whose keys are 0, 1, 2, ... in order. */
  predicate IsNumericList(es: seq<Entry>) {
    forall i :: 0 <= i < |es| ==> es[i].key == IntKey(i)
  }

  /** Whether `mapUnit` treats the resource as many records. */
  predicate IsListShaped(v: Value) {
    v.Collection? || v.Paginator? || (v.Arr? && IsNumericList(v.entries))
  }

  /** The records of a list-shaped resource, in order. */
  function ListItems(v: Value): seq<Value>
    requires IsListShaped(v)
  {
    match v
    case Collection(items) => items
    case Paginator(items, _, _, _, _) => items
    case Arr(es) => seq(|es|, i requires 0 <= i < |es| => es[i].val)
  }

  /** The callback applied to each item, numbered from `from`: `->map($callback)->toArray()`. */
  function MapItems(items: seq<Value>, callback: Value -> Value, from: nat): (r: seq<Entry>)
    ensures |r| == |items|
    ensures forall i :: 0 <= i < |items| ==> r[i] == Entry(IntKey(from + i), callback(items[i]))
    decreases |items|
  {
    if items == [] then [] else [Entry(IntKey(from), callback(items[0]))] + MapItems(items[1..], callback, from + 1)
  }

  /**
    `Resources::mapUnit($resource, $callback)`: for a Collection, a paginator or
    a numeric list, a list holding the callback's result for each item in
    order; for anything else, the callback's result for the resource itself.
   */
  function MapUnit(resource: Value, callback: Value -> Value): (r: Value)
    ensures IsListShaped(resource) ==>
      && r.Arr? && IsNumericList(r.entries)
      && |r.entries| == |ListItems(resource)|
      && forall i :: 0 <= i < |r.entries| ==> r.entries[i].val == callback(ListItems(resource)[i])
    ensures !IsListShaped(resource) ==> r == callback(resource)
  {
    if IsListShaped(resource) then Arr(MapItems(ListItems(resource), callback, 0)) else callback(resource)
  }

  /** How often `mapUnit` invokes its callback: once per item, or once. */
  function CallCount(resource: Value): nat {
    if IsListShaped(resource) then |ListItems(resource)| else 1
  }

  /** `mapUnit` over an empty list never looks at its callback. */
  lemma MapUnitNoCalls(resource: Value, f: Value -> Value, g: Value -> Value)
    requires CallCount(resource) == 0
    ensures MapUnit(resource, f) == MapUnit(resource, g)
  {
    assert MapItems(ListItems(resource), f, 0) == [] == MapItems(ListItems(resource), g, 0);
  }

  /* ---------------- mapExecClosure ---------------- */

  /** The entries that `mapExecClosure` keeps: every remover entry deletes itself. */
  function WithoutRemovers(es: seq<Entry>): seq<Entry> {
    if es == [] then [] else (if es[0].val.Remover? then [] else [es[0]]) + WithoutRemovers(es[1..])
  }

  /** What `mapExecClosure` makes of the wrapped value: arrays lose their remover entries, the rest stays. */
  function ExecClosures(v: Value): Value {
    if v.Arr? then Arr(WithoutRemovers(v.entries)) else v
  }

  /** `x` is `y` with some entries left out, the rest kept in order. */
  predicate IsSubsequence(x: seq<Entry>, y: seq<Entry>)
    decreases |y|
  {
    if x == [] then true
    else if y == [] then false
    else (x[0] == y[0] && IsSubsequence(x[1..], y[1..])) || IsSubsequence(x, y[1..])
  }

  lemma {:induction false} WithoutRemoversConcat(a: seq<Entry>, b: seq<Entry>)
    ensures WithoutRemovers(a + b) == WithoutRemovers(a) + WithoutRemovers(b)
  {
    if |a| > 0 {
      var t := a[1..];
      assert (a + b)[0] == a[0] && (a + b)[1..] == t + b;
      WithoutRemoversConcat(t, b);
      var h := if a[0].val.Remover? then [] else [a[0]];
      calc {
        WithoutRemovers(a + b);
        h + WithoutRemovers(t + b);
        h + (WithoutRemovers(t) + WithoutRemovers(b));
        (h + WithoutRemovers(t)) + WithoutRemovers(b);
      }
    } else {
      assert a + b == b;
    }
  }

  lemma WithoutRemoversSingle(e: Entry)
    ensures WithoutRemovers([e]) == if e.val.Remover? then [] else [e]
  {
    assert [e][1..] == [];
  }

  /** Exactly the non-remover entries survive, each unchanged. */
  lemma {:induction false} WithoutRemoversMembers(es: seq<Entry>)
    ensures forall e :: e in WithoutRemovers(es) <==> e in es && !e.val.Remover?
  {
    if es != [] {
      WithoutRemoversMembers(es[1..]);
      assert es == [es[0]] + es[1..];
    }
  }

  /** The surviving entries keep their relative order. */
  lemma {:induction false} WithoutRemoversIsSubsequence(es: seq<Entry>)
    ensures IsSubsequence(WithoutRemovers(es), es)
  {
    if es != [] {
      WithoutRemoversIsSubsequence(es[1..]);
      var r := WithoutRemovers(es);
      if !es[0].val.Remover? {
        assert r[0] == es[0] && r[1..] == WithoutRemovers(es[1..]);
      } else {
        assert r == WithoutRemovers(es[1..]);
      }
    }
  }

  /** No key appears that was not there. */
  lemma {:induction false} WithoutRemoversKeys(es: seq<Entry>, k: Key)
    ensures HasKey(WithoutRemovers(es), k) ==> HasKey(es, k)
  {
    if es != [] {
      WithoutRemoversKeys(es[1..], k);
      var h := if es[0].val.Remover? then [] else [es[0]];
      KeysOfConcat(h, WithoutRemovers(es[1..]));
      assert KeysOf(es) == [es[0].key] + KeysOf(es[1..]);
    }
  }

  /** Through its keys: a remover's key reads as absent afterwards, every other key as before. */
  lemma {:induction false} WithoutRemoversLookup(es: seq<Entry>, k: Key)
    requires UniqueKeys(es)
    ensures Lookup(WithoutRemovers(es), k) == if Lookup(es, k) == Some(Remover) then None else Lookup(es, k)
  {
    if es != [] {
      var t := es[1..];
      UniqueTail(es);
      if es[0].key == k {
        if es[0].val.Remover? {
          assert WithoutRemovers(es) == WithoutRemovers(t);
          WithoutRemoversKeys(t, k);
          LookupHasKey(WithoutRemovers(t), k);
        }
      } else {
        WithoutRemoversLookup(t, k);
      }
    }
  }

  /** Resolving twice changes nothing more. */
  lemma {:induction false} ExecClosuresIdempotent(v: Value)
    ensures ExecClosures(ExecClosures(v)) == ExecClosures(v)
  {
    if v.Arr? {
      WithoutRemoversTwice(v.entries);
    }
  }

  /** A value whose top level, when it is an array, holds no remover. */
  predicate NoRemovers(v: Value) {
    v.Arr? ==> forall i :: 0 <= i < |v.entries| ==> !v.entries[i].val.Remover?
  }

  /** After `mapExecClosure` no remover is left at the top level, and a second run changes nothing. */
  lemma ExecClosuresClean()
    ensures forall v :: NoRemovers(ExecClosures(v)) && ExecClosures(ExecClosures(v)) == ExecClosures(v)
  {
    forall v ensures NoRemovers(ExecClosures(v)) && ExecClosures(ExecClosures(v)) == ExecClosures(v) {
      ExecClosuresIdempotent(v);
      if v.Arr? {
        var r := WithoutRemovers(v.entries);
        WithoutRemoversMembers(v.entries);
        assert forall i :: 0 <= i < |r| ==> r[i] in r;
      }
    }
  }

  lemma {:induction false} WithoutRemoversTwice(es: seq<Entry>)
    ensures WithoutRemovers(WithoutRemovers(es)) == WithoutRemovers(es)
  {
    if es != [] {
      WithoutRemoversTwice(es[1..]);
      var h := if es[0].val.Remover? then [] else [es[0]];
      WithoutRemoversConcat(h, WithoutRemovers(es[1..]));
      if !es[0].val.Remover? { WithoutRemoversSingle(es[0]); }
    }
  }

  lemma ConsUniqueKeys(h: Entry, rest: seq<Entry>)
    requires UniqueKeys(rest) && !HasKey(rest, h.key)
    ensures UniqueKeys([h] + rest)
  {
    var s := [h] + rest;
    forall i, j | 0 <= i < j < |s| ensures s[i].key != s[j].key {
      assert s[j] == rest[j - 1] && KeysOf(rest)[j - 1] == rest[j - 1].key;
      if i > 0 { assert s[i] == rest[i - 1]; }
    }
  }

  /** Dropping removers at the front of a PHP array keeps it a PHP array. */
  lemma {:induction false} WithoutRemoversUniqueKeys(a: seq<Entry>, b: seq<Entry>)
    requires UniqueKeys(a + b)
    ensures UniqueKeys(WithoutRemovers(a) + b)
  {
    if |a| > 0 {
      var t := a[1..];
      assert a + b == [a[0]] + (t + b);
      UniqueTail(a + b);
      assert (a + b)[1..] == t + b;
      WithoutRemoversUniqueKeys(t, b);
      if !a[0].val.Remover? {
        assert WithoutRemovers(a) + b == [a[0]] + (WithoutRemovers(t) + b);
        WithoutRemoversKeys(t, a[0].key);
        KeysOfConcat(WithoutRemovers(t), b);
        KeysOfConcat(t, b);
        ConsUniqueKeys(a[0], WithoutRemovers(t) + b);
      } else {
        assert WithoutRemovers(a) == WithoutRemovers(t);
      }
    } else {
      assert a + b == b;
    }
  }

  /**
    The state of the `mapExecClosure` walk over `orig`: the entries `handled`
    so far, each remover among them deleted, are followed by the `rest`; the
    pointer `pos` stands on the first entry of the rest; `lastKey` is the last
    key of the array as it now stands; the keys were visited in order.
   */
  ghost predicate Walked(orig: seq<Entry>, es: seq<Entry>, pos: nat, lastKey: Option<Key>, done: bool,
                         handled: seq<Entry>, rest: seq<Entry>, visited: seq<Key>)
  {
    && UniqueKeys(es)
    && orig == handled + rest
    && es == WithoutRemovers(handled) + rest
    && pos == |WithoutRemovers(handled)|
    && (!done ==> lastKey == LastKey(es))
    && (done ==> rest == [])
    && visited == KeysOf(handled)
  }

  lemma WalkStarts(orig: seq<Entry>)
    requires UniqueKeys(orig)
    ensures Walked(orig, orig, 0, LastKey(orig), false, [], orig, [])
  {
    assert [] + orig == orig;
  }

  /** Moving the first entry of the rest to the handled part. */
  lemma WalkAdvance(handled: seq<Entry>, rest: seq<Entry>)
    requires rest != []
    ensures handled + rest == (handled + [rest[0]]) + rest[1..]
    ensures WithoutRemovers(handled + [rest[0]]) == WithoutRemovers(handled) + if rest[0].val.Remover? then [] else [rest[0]]
    ensures KeysOf(handled + [rest[0]]) == KeysOf(handled) + [rest[0].key]
  {
    SplitFirst(handled, rest);
    WithoutRemoversSnoc(handled, rest[0]);
    KeysOfSnoc(handled, rest[0]);
  }

  lemma SplitFirst(handled: seq<Entry>, rest: seq<Entry>)
    requires rest != []
    ensures handled + rest == (handled + [rest[0]]) + rest[1..]
  {
    assert rest == [rest[0]] + rest[1..];
  }

  lemma WithoutRemoversSnoc(handled: seq<Entry>, e: Entry)
    ensures WithoutRemovers(handled + [e]) == WithoutRemovers(handled) + if e.val.Remover? then [] else [e]
  {
    WithoutRemoversConcat(handled, [e]);
    WithoutRemoversSingle(e);
  }

  lemma KeysOfSnoc(handled: seq<Entry>, e: Entry)
    ensures KeysOf(handled + [e]) == KeysOf(handled) + [e.key]
  {
    KeysOfConcat(handled, [e]);
    assert KeysOf([e]) == [e.key];
  }

  /** Where the pointer stands in the array as it now is. */
  lemma WalkPointer(kept: seq<Entry>, rest: seq<Entry>, es: seq<Entry>)
    requires rest != [] && es == kept + rest
    ensures |kept| < |es| && es[|kept|] == rest[0]
    ensures es[..|kept|] + es[|kept| + 1..] == kept + rest[1..]
    ensures es == (kept + [rest[0]]) + rest[1..]
  {
    assert es[..|kept|] == kept;
    assert es[|kept| + 1..] == rest[1..];
    assert rest == [rest[0]] + rest[1..];
  }

  /** In a PHP array only the last entry carries the last key. */
  lemma UniqueLast(es: seq<Entry>, p: nat)
    requires UniqueKeys(es) && p < |es| && es[p].key == es[|es| - 1].key
    ensures p == |es| - 1
  {
  }

  /** Unsetting the key under the pointer takes out exactly that entry. */
  lemma UnsetAtPointer(kept: seq<Entry>, rest: seq<Entry>, es: seq<Entry>)
    requires rest != [] && es == kept + rest && UniqueKeys(es)
    ensures Remove(es, rest[0].key) == kept + rest[1..]
    ensures UniqueKeys(kept + rest[1..])
    ensures |kept + rest[1..]| < |es|
  {
    WalkPointer(kept, rest, es);
    RemoveAt(es, |kept|);
    RemoveUniqueKeys(es, rest[0].key);
  }

  /** Taking out the entry under the pointer keeps the last key, unless that entry was the last. */
  lemma UnsetKeepsLast(kept: seq<Entry>, rest: seq<Entry>)
    requires rest != []
    ensures |rest| == 1 ==> LastKey(kept + rest) == Some(rest[0].key)
    ensures |rest| > 1 ==> LastKey(kept + rest[1..]) == LastKey(kept + rest)
  {
    var es := kept + rest;
    assert es[|es| - 1] == rest[|rest| - 1];
    if |rest| > 1 {
      var es' := kept + rest[1..];
      assert es'[|es'| - 1] == rest[|rest| - 1];
    }
  }

  /** In a PHP array, unsetting the last key under the pointer leaves nothing after it. */
  lemma UnsetLastEndsWalk(kept: seq<Entry>, rest: seq<Entry>, es: seq<Entry>)
    requires rest != [] && es == kept + rest && UniqueKeys(es) && LastKey(es) == Some(rest[0].key)
    ensures rest[1..] == []
  {
    assert es[|kept|] == rest[0];
    UniqueLast(es, |kept|);
  }

  /** The pointer stands on a remover: it unsets its own key, and the pointer then stands on the next entry. */
  lemma WalkRemove(orig: seq<Entry>, es: seq<Entry>, pos: nat, lastKey: Option<Key>,
                   handled: seq<Entry>, rest: seq<Entry>, visited: seq<Key>)
    requires Walked(orig, es, pos, lastKey, false, handled, rest, visited)
    requires pos < |es| && es[pos].val.Remover?
    ensures rest != [] && |Remove(es, es[pos].key)| < |es|
    ensures Walked(orig, Remove(es, es[pos].key), pos, lastKey, lastKey == Some(es[pos].key),
                   handled + [rest[0]], rest[1..], visited + [es[pos].key])
  {
    var kept := WithoutRemovers(handled);
    WalkPointer(kept, rest, es);
    WalkAdvance(handled, rest);
    assert WithoutRemovers(handled + [rest[0]]) == kept;
    UnsetAtPointer(kept, rest, es);
    UnsetKeepsLast(kept, rest);
    if lastKey == Some(rest[0].key) {
      UnsetLastEndsWalk(kept, rest, es);
    }
  }

  /** The pointer stands on any other entry: the last key is read afresh and the pointer moves on. */
  lemma WalkKeep(orig: seq<Entry>, es: seq<Entry>, pos: nat, lastKey: Option<Key>,
                 handled: seq<Entry>, rest: seq<Entry>, visited: seq<Key>)
    requires Walked(orig, es, pos, lastKey, false, handled, rest, visited)
    requires pos < |es| && !es[pos].val.Remover?
    ensures rest != []
    ensures Walked(orig, es, pos + 1, LastKey(es), LastKey(es) == Some(es[pos].key),
                   handled + [rest[0]], rest[1..], visited + [es[pos].key])
  {
    WalkAdvance(handled, rest);
    WalkPointer(WithoutRemovers(handled), rest, es);
    if LastKey(es) == Some(es[pos].key) {
      UniqueLast(es, pos);
    }
  }

  /** The pointer has run past the end: the walk has handled everything. */
  lemma WalkPastEnd(orig: seq<Entry>, es: seq<Entry>, pos: nat, lastKey: Option<Key>,
                    handled: seq<Entry>, rest: seq<Entry>, visited: seq<Key>)
    requires Walked(orig, es, pos, lastKey, false, handled, rest, visited)
    requires pos >= |es|
    ensures Walked(orig, es, pos, LastKey(es), true, handled, rest, visited)
  {
  }

  lemma WalkDone(orig: seq<Entry>, es: seq<Entry>, pos: nat, lastKey: Option<Key>,
                 handled: seq<Entry>, rest: seq<Entry>, visited: seq<Key>)
    requires Walked(orig, es, pos, lastKey, true, handled, rest, visited)
    ensures es == WithoutRemovers(orig) && visited == KeysOf(orig)
  {
    assert handled == orig && rest == [];
  }

  /* ---------------- the container ---------------- */

  class Resources {
    /** the wrapped value */
    var resources: Value

    ghost predicate Valid()
      reads this
    {
      WellKeyed(resources)
    }

    constructor (resources: Value)
      requires WellKeyed(resources)
      ensures Valid() && this.resources == resources && Get() == resources
    {
      this.resources := resources;
    }

    /** `get()`: the wrapped value, returned by value (an array is copied, an object handle is shared). */
    function Get(): (r: Value)
      reads this
      ensures Valid() ==> WellKeyed(r)
    {
      resources
    }

    /** `offsetExists($k)` */
    function OffsetExists(k: Key): bool
      reads this
    {
      Offset(resources, k).Some?
    }

    /** `offsetGet($k)`: the value under the key, or null. */
    function OffsetGet(k: Key): Value
      reads this
    {
      match Offset(resources, k)
      case Some(v) => v
      case None => Null
    }

    /** `offsetSet($k, $v)` on the wrapped array. */
    method OffsetSet(k: Key, v: Value)
      requires Valid() && resources.Arr?
      modifies this
      ensures Valid() && resources == Arr(Put(old(resources).entries, k, v))
    {
      PutUniqueKeys(resources.entries, k, v);
      resources := Arr(Put(resources.entries, k, v));
    }

    /** `offsetUnset($k)` on the wrapped array. */
    method OffsetUnset(k: Key)
      requires Valid() && resources.Arr?
      modifies this
      ensures Valid() && resources == Arr(Remove(old(resources).entries, k))
    {
      RemoveUniqueKeys(resources.entries, k);
      resources := Arr(Remove(resources.entries, k));
    }

    /** `deepSet($data, $deep)`: `Arr::set` on the wrapped array. */
    method DeepSet(data: Value, deep: string)
      requires Valid() && resources.Arr?
      modifies this
      ensures Valid() && resources == Arr(SetPath(old(resources).entries, PathKeys(deep), data))
    {
      SetPathUniqueKeys(resources.entries, PathKeys(deep), data);
      resources := Arr(SetPath(resources.entries, PathKeys(deep), data));
    }

    /** `merge($data)`: `array_merge` of the wrapped array with `$data`. */
    method Merge(data: seq<Entry>)
      requires Valid() && resources.Arr?
      modifies this
      ensures Valid() && resources == Arr(ArrayMerge(old(resources).entries, data))
    {
      ArrayMergeUniqueKeys(resources.entries, data);
      resources := Arr(ArrayMerge(resources.entries, data));
    }

    /**
      One turn of the `mapExecClosure` loop, with the pointer at `pos`: a
      remover entry unsets its own key, leaving the pointer on the next entry;
      any other entry makes the walk re-read the last key and advance the
      pointer. The walk is done once the key just handled is the last key, or
      once the pointer has run past the end.
     */
    method WalkOnce(ghost orig: seq<Entry>, pos: nat, lastKey: Option<Key>,
                    ghost handled: seq<Entry>, ghost rest: seq<Entry>, ghost visited: seq<Key>)
      returns (pos': nat, lastKey': Option<Key>, done: bool,
               ghost handled': seq<Entry>, ghost rest': seq<Entry>, ghost visited': seq<Key>)
      requires Valid() && resources.Arr?
      requires Walked(orig, resources.entries, pos, lastKey, false, handled, rest, visited)
      modifies this
      ensures Valid() && resources.Arr?
      ensures Walked(orig, resources.entries, pos', lastKey', done, handled', rest', visited')
      ensures 2 * |resources.entries| - pos' <= 2 * |old(resources).entries| - pos
      ensures done || 2 * |resources.entries| - pos' < 2 * |old(resources).entries| - pos
    {
      var es := resources.entries;
      if pos < |es| {
        var currentKey := es[pos].key;
        if es[pos].val.Remover? {
          WalkRemove(orig, es, pos, lastKey, handled, rest, visited);
          OffsetUnset(currentKey);
          pos', lastKey' := pos, lastKey;
        } else {
          WalkKeep(orig, es, pos, lastKey, handled, rest, visited);
          pos', lastKey' := pos + 1, LastKey(es);
        }
        done := lastKey' == Some(currentKey);
        handled', rest', visited' := handled + [rest[0]], rest[1..], visited + [currentKey];
      } else {
        // `key()` is null past the end: `current()` is false, no closure, and the walk stops
        WalkPastEnd(orig, es, pos, lastKey, handled, rest, visited);
        pos', lastKey', done := pos, LastKey(es), true;
        handled', rest', visited' := handled, rest, visited;
      }
    }

    /**
      `mapExecClosure()`: a walk with the array's internal pointer over the
      wrapped array. A remover entry is invoked with this container and its
      key, unsets that key and returns null; the walk then continues without
      `next()`, since the pointer already stands on the following entry.
      The walk stops once the key recorded as last has been handled.
      `visited` lists the keys in the order the walk reaches them.
     */
    method MapExecClosure() returns (ghost visited: seq<Key>)
      requires Valid()
      modifies this
      ensures Valid()
      ensures resources == ExecClosures(old(resources))
      ensures visited == if old(resources).Arr? then KeysOf(old(resources).entries) else []
    {
      visited := [];
      if !resources.Arr? {
        return;
      }
      ghost var orig := resources.entries;
      var lastKey := LastKey(resources.entries);
      var pos := 0;
      var done := false;
      ghost var handled: seq<Entry> := [];
      ghost var rest := orig;
      WalkStarts(orig);
      while !done
        invariant Valid() && resources.Arr?
        invariant Walked(orig, resources.entries, pos, lastKey, done, handled, rest, visited)
        decreases 2 * |resources.entries| - pos, if done then 0 else 1
      {
        pos, lastKey, done, handled, rest, visited := WalkOnce(orig, pos, lastKey, handled, rest, visited);
      }
      WalkDone(orig, resources.entries, pos, lastKey, handled, rest, visited);
    }
  }
}
