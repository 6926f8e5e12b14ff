/**
  PHP values as the packing engine handles them, and the built-in array
  operations it relies on: offset casting, `$a[$k]`, `$a[$k] = $v`,
  `unset($a[$k])`, `end()`/`key()` and `array_merge`.
  A PHP array is an ordered map; it is modelled as a sequence of entries.
 */
module PhpArrays {
  import opened Wrappers

  /** An array key: PHP arrays are keyed by integers or by strings. */
  datatype Key = IntKey(n: int) | StrKey(s: string)

  /** The values a resource, a handler result or the output tree can hold. */
  datatype Value =
    | Null
    | Bool(b: bool)
    | Int(i: int)
    | Str(s: string)
      /** a PHP array */
    | Arr(entries: seq<Entry>)
      /** an Illuminate Collection of items */
    | Collection(items: seq<Value>)
      /** an AbstractPaginator: one page of items and its four counters */
    | Paginator(items: seq<Value>, currentPage: int, lastPage: int, perPage: int, total: int)
      /** any other object, read through its public properties */
    | Obj(props: map<string, Value>)
      /** the closure `fn(Resources $r, $key) => $r->offsetUnset($key)` */
    | Remover

  datatype Entry = Entry(key: Key, val: Value)

  /* ---------------- offset casting ---------------- */

  predicate IsDigit(c: char) { '0' <= c <= '9' }

  predicate AllDigits(s: string) { forall i :: 0 <= i < |s| ==> IsDigit(s[i]) }

  /** A non-negative integer written without sign and without leading zeros. */
  predicate IsDecimal(s: string) { |s| >= 1 && AllDigits(s) && (s[0] == '0' ==> |s| == 1) }

  /** The strings PHP turns into integer keys when they are used as array offsets. */
  predicate IsCanonicalInt(s: string) {
    IsDecimal(s) || (|s| >= 2 && s[0] == '-' && IsDecimal(s[1..]) && s[1] != '0')
  }

  function DigitsValue(s: string): nat
    requires AllDigits(s)
    decreases |s|
  {
    if s == [] then 0 else 10 * DigitsValue(s[..|s| - 1]) + (s[|s| - 1] as int - '0' as int)
  }

  /** The key PHP stores when the string `s` is used as an array offset. */
  function KeyOf(s: string): (k: Key)
    ensures k.StrKey? <==> !IsCanonicalInt(s)
    ensures k.StrKey? ==> k.s == s
  {
    if IsDecimal(s) then IntKey(DigitsValue(s))
    else if IsCanonicalInt(s) then IntKey(0 - DigitsValue(s[1..]) as int)
    else StrKey(s)
  }

  function Digit(d: nat): char
    requires d < 10
  {
    ('0' as int + d) as char
  }

  /** The decimal form PHP prints for a non-negative integer. */
  function NatToString(n: nat): string
    decreases n
  {
    if n < 10 then [Digit(n)] else NatToString(n / 10) + [Digit(n % 10)]
  }

  function IntToString(n: int): string {
    if n >= 0 then NatToString(n) else "-" + NatToString(-n)
  }

  lemma {:induction false} NatToStringIsDecimal(n: nat)
    ensures IsDecimal(NatToString(n)) && DigitsValue(NatToString(n)) == n
    ensures NatToString(n)[0] == '0' <==> n == 0
  {
    if n >= 10 {
      NatToStringIsDecimal(n / 10);
      var s := NatToString(n / 10);
      var t := s + [Digit(n % 10)];
      assert t == NatToString(n);
      assert t[..|t| - 1] == s;
      assert t[0] == s[0];
      assert AllDigits(t) by {
        forall i | 0 <= i < |t| ensures IsDigit(t[i]) {
          if i < |s| { assert t[i] == s[i]; }
        }
      }
    }
  }

  /** An integer written out and used as an offset is stored under that integer. */
  lemma KeyOfIntToString(n: int)
    ensures KeyOf(IntToString(n)) == IntKey(n)
  {
    if n >= 0 {
      NatToStringIsDecimal(n);
    } else {
      NatToStringIsDecimal(-n);
      var s := IntToString(n);
      assert s[1..] == NatToString(-n);
      assert !IsDecimal(s) by { assert !IsDigit(s[0]); }
    }
  }

  /* ---------------- ordered-map operations ---------------- */

  /** The keys of an array, in order. */
  function KeysOf(es: seq<Entry>): (ks: seq<Key>)
    ensures |ks| == |es|
    ensures forall i :: 0 <= i < |es| ==> ks[i] == es[i].key
  {
    if es == [] then [] else [es[0].key] + KeysOf(es[1..])
  }

  predicate HasKey(es: seq<Entry>, k: Key) { k in KeysOf(es) }

  lemma KeysOfConcat(a: seq<Entry>, b: seq<Entry>)
    ensures KeysOf(a + b) == KeysOf(a) + KeysOf(b)
  {
    var l, r := KeysOf(a + b), KeysOf(a) + KeysOf(b);
    forall i | 0 <= i < |a| + |b| ensures l[i] == r[i] {
      if i < |a| {
        assert (a + b)[i] == a[i];
      } else {
        assert (a + b)[i] == b[i - |a|];
      }
    }
  }

  /** No key occurs twice: true of every PHP array. */
  predicate UniqueKeys(es: seq<Entry>) {
    forall i, j :: 0 <= i < j < |es| ==> es[i].key != es[j].key
  }

  /** A value whose top level, when it is an array, is a genuine PHP array. */
  predicate WellKeyed(v: Value) { v.Arr? ==> UniqueKeys(v.entries) }

  /** `$a[$k]` for a key that may be absent. */
  function Lookup(es: seq<Entry>, k: Key): Option<Value> {
    if es == [] then None
    else if es[0].key == k then Some(es[0].val)
    else Lookup(es[1..], k)
  }

  /** `$a[$k]` where PHP yields null for a missing key. */
  function LookupOrNull(es: seq<Entry>, k: Key): Value {
    match Lookup(es, k)
    case Some(v) => v
    case None => Null
  }

  /** `$a[$k] = $v`: an existing key keeps its position, a new key is appended. */
  function Put(es: seq<Entry>, k: Key, v: Value): seq<Entry> {
    if es == [] then [Entry(k, v)]
    else if es[0].key == k then [Entry(k, v)] + es[1..]
    else [es[0]] + Put(es[1..], k, v)
  }

  /** `unset($a[$k])`: every other entry keeps its value and its place. */
  function Remove(es: seq<Entry>, k: Key): seq<Entry> {
    if es == [] then []
    else if es[0].key == k then Remove(es[1..], k)
    else [es[0]] + Remove(es[1..], k)
  }

  /** Writing a key and then unsetting it is unsetting it. */
  lemma {:induction false} RemovePut(es: seq<Entry>, k: Key, v: Value)
    ensures Remove(Put(es, k, v), k) == Remove(es, k)
  {
    if es != [] && es[0].key != k {
      RemovePut(es[1..], k, v);
    }
  }

  /** `end($a); key($a)`, the helper `getRefLastKey`: the last key, or null for an empty array. */
  function LastKey(es: seq<Entry>): (r: Option<Key>)
    ensures r.None? <==> es == []
    ensures r.Some? ==> r.value == es[|es| - 1].key && HasKey(es, r.value)
  {
    if es == [] then None else Some(es[|es| - 1].key)
  }

  /** A key is found exactly when the array holds it, and it is found with a value stored under it. */
  lemma {:induction false} LookupHasKey(es: seq<Entry>, k: Key)
    ensures Lookup(es, k).Some? <==> HasKey(es, k)
    ensures Lookup(es, k).Some? ==> Entry(k, Lookup(es, k).value) in es
  {
    if es != [] {
      assert KeysOf(es) == [es[0].key] + KeysOf(es[1..]);
      if es[0].key != k {
        LookupHasKey(es[1..], k);
      }
    }
  }

  /** After `$a[$k] = $v`, `$a[$k]` is `$v`. */
  lemma {:induction false} PutSame(es: seq<Entry>, k: Key, v: Value)
    ensures Lookup(Put(es, k, v), k) == Some(v)
  {
    if es != [] && es[0].key != k {
      PutSame(es[1..], k, v);
    }
  }

  /** `$a[$k] = $v` leaves every other key's value alone. */
  lemma {:induction false} PutOther(es: seq<Entry>, k: Key, v: Value, k': Key)
    requires k' != k
    ensures Lookup(Put(es, k, v), k') == Lookup(es, k')
  {
    if es != [] && es[0].key != k {
      PutOther(es[1..], k, v, k');
    }
  }

  /** After `unset($a[$k])` the key is gone. */
  lemma {:induction false} RemoveSame(es: seq<Entry>, k: Key)
    ensures Lookup(Remove(es, k), k) == None
  {
    if es != [] {
      RemoveSame(es[1..], k);
    }
  }

  /** `unset($a[$k])` leaves every other key's value alone. */
  lemma {:induction false} RemoveOther(es: seq<Entry>, k: Key, k': Key)
    requires k' != k
    ensures Lookup(Remove(es, k), k') == Lookup(es, k')
  {
    if es != [] {
      RemoveOther(es[1..], k, k');
    }
  }

  /** `unset` adds nothing: what remains was there before. */
  lemma {:induction false} RemoveMembers(es: seq<Entry>, k: Key)
    ensures forall e :: e in Remove(es, k) ==> e in es
  {
    if es != [] {
      RemoveMembers(es[1..], k);
    }
  }

  /** Writing a key keeps the order of the keys; a new key goes last. */
  lemma {:induction false} PutKeys(es: seq<Entry>, k: Key, v: Value)
    ensures KeysOf(Put(es, k, v)) == if HasKey(es, k) then KeysOf(es) else KeysOf(es) + [k]
  {
    if es != [] && es[0].key != k {
      PutKeys(es[1..], k, v);
      assert KeysOf(es) == [es[0].key] + KeysOf(es[1..]);
      assert HasKey(es, k) == HasKey(es[1..], k);
    }
  }

  /** Writing a new key appends it to the keys. */
  lemma PutFresh(es: seq<Entry>, k: Key, v: Value, ks: seq<Key>)
    requires KeysOf(es) == ks && k !in ks
    ensures KeysOf(Put(es, k, v)) == ks + [k]
  {
    PutKeys(es, k, v);
  }

  lemma UniqueKeysFromKeys(es: seq<Entry>)
    requires forall i, j :: 0 <= i < j < |KeysOf(es)| ==> KeysOf(es)[i] != KeysOf(es)[j]
    ensures UniqueKeys(es)
  {
    forall i, j | 0 <= i < j < |es| ensures es[i].key != es[j].key {
      assert KeysOf(es)[i] == es[i].key && KeysOf(es)[j] == es[j].key;
    }
  }

  lemma PutUniqueKeys(es: seq<Entry>, k: Key, v: Value)
    requires UniqueKeys(es)
    ensures UniqueKeys(Put(es, k, v))
  {
    PutKeys(es, k, v);
    var ks, rs := KeysOf(es), KeysOf(Put(es, k, v));
    forall i, j | 0 <= i < j < |rs| ensures rs[i] != rs[j] {
      if j < |ks| {
        assert rs[i] == es[i].key && rs[j] == es[j].key;
      } else {
        assert rs[j] == k && !HasKey(es, k) && rs[i] == ks[i];
      }
    }
    UniqueKeysFromKeys(Put(es, k, v));
  }

  lemma {:induction false} RemoveUniqueKeys(es: seq<Entry>, k: Key)
    requires UniqueKeys(es)
    ensures UniqueKeys(Remove(es, k))
  {
    if es != [] {
      RemoveUniqueKeys(es[1..], k);
      RemoveMembers(es[1..], k);
      if es[0].key != k {
        var r := Remove(es, k);
        forall j | 0 < j < |r| ensures r[0].key != r[j].key {
          assert r[j] in Remove(es[1..], k);
          var m :| 0 <= m < |es[1..]| && es[1..][m] == r[j];
          assert es[1 + m] == r[j];
        }
      }
    }
  }

  /** Deleting a key that sits at position `p` of a PHP array closes the gap there. */
  lemma RemoveAt(es: seq<Entry>, p: nat)
    requires UniqueKeys(es) && p < |es|
    ensures Remove(es, es[p].key) == es[..p] + es[p + 1..]
  {
    UniqueKeysAround(es, p);
    RemoveAtSplit(es[..p], es[p], es[p + 1..]);
    assert es == es[..p] + [es[p]] + es[p + 1..];
  }

  /** In a PHP array, the key at position `p` occurs neither before nor after it. */
  lemma UniqueKeysAround(es: seq<Entry>, p: nat)
    requires UniqueKeys(es) && p < |es|
    ensures !HasKey(es[..p], es[p].key) && !HasKey(es[p + 1..], es[p].key)
  {
    var k, pre, post := es[p].key, es[..p], es[p + 1..];
    forall i | 0 <= i < |pre| ensures KeysOf(pre)[i] != k {
      assert pre[i] == es[i];
    }
    forall i | 0 <= i < |post| ensures KeysOf(post)[i] != k {
      assert post[i] == es[p + 1 + i];
    }
  }

  lemma RemoveAtSplit(pre: seq<Entry>, e: Entry, post: seq<Entry>)
    requires !HasKey(pre, e.key) && !HasKey(post, e.key)
    ensures Remove(pre + [e] + post, e.key) == pre + post
  {
    var k := e.key;
    assert [e][1..] == [];
    calc {
      Remove(pre + [e] + post, k);
      { RemoveConcat(pre + [e], post, k); }
      Remove(pre + [e], k) + Remove(post, k);
      { RemoveConcat(pre, [e], k); }
      Remove(pre, k) + Remove([e], k) + Remove(post, k);
      { RemoveAbsent(pre, k); RemoveAbsent(post, k); }
      pre + [] + post;
    }
    assert pre + [] + post == pre + post;
  }

  lemma {:induction false} RemoveConcat(a: seq<Entry>, b: seq<Entry>, k: Key)
    ensures Remove(a + b, k) == Remove(a, k) + Remove(b, k)
  {
    if a == [] {
      assert a + b == b;
    } else {
      assert (a + b)[0] == a[0];
      assert (a + b)[1..] == a[1..] + b;
      RemoveConcat(a[1..], b, k);
      if a[0].key != k {
        assert Remove(a + b, k) == [a[0]] + (Remove(a[1..], k) + Remove(b, k));
      }
    }
  }

  lemma {:induction false} RemoveAbsent(es: seq<Entry>, k: Key)
    requires !HasKey(es, k)
    ensures Remove(es, k) == es
  {
    if es != [] {
      assert KeysOf(es) == [es[0].key] + KeysOf(es[1..]);
      RemoveAbsent(es[1..], k);
    }
  }

  /** In a PHP array, the key at position `i` reads back the value at position `i`. */
  lemma {:induction false} LookupAt(es: seq<Entry>, i: nat)
    requires UniqueKeys(es) && i < |es|
    ensures Lookup(es, es[i].key) == Some(es[i].val)
  {
    if i > 0 {
      assert es[0].key != es[i].key;
      assert es[1..][i - 1] == es[i];
      LookupAt(es[1..], i - 1);
    }
  }

  lemma UniqueTail(es: seq<Entry>)
    requires UniqueKeys(es) && es != []
    ensures UniqueKeys(es[1..]) && !HasKey(es[1..], es[0].key)
  {
    var t := es[1..];
    forall i, j | 0 <= i < j < |t| ensures t[i].key != t[j].key {
      assert t[i] == es[i + 1] && t[j] == es[j + 1];
    }
    forall i | 0 <= i < |t| ensures KeysOf(t)[i] != es[0].key {
      assert t[i] == es[i + 1];
    }
  }

  /** Every entry after `$a[$k] = $v` is the new one or an entry that was there. */
  lemma {:induction false} PutMembers(es: seq<Entry>, k: Key, v: Value)
    ensures forall e :: e in Put(es, k, v) ==> e in es || e == Entry(k, v)
  {
    if es != [] && es[0].key != k {
      PutMembers(es[1..], k, v);
    }
  }

  /* ---------------- array_merge ---------------- */

  /** The values an array holds under integer keys, in order. */
  function IntValues(es: seq<Entry>): seq<Value> {
    if es == [] then []
    else (if es[0].key.IntKey? then [es[0].val] else []) + IntValues(es[1..])
  }

  /** The integer keys of an array, in order. */
  function IntKeyList(es: seq<Entry>): seq<int> {
    if es == [] then []
    else (if es[0].key.IntKey? then [es[0].key.n] else []) + IntKeyList(es[1..])
  }

  /** 0, 1, ..., n - 1 */
  function Naturals(n: nat): seq<int> {
    seq(n, i => i)
  }

  /**
    The loop of `array_merge`: the entries of `s` are added to `acc` in order;
    an integer-keyed value is appended under the next free integer `next`,
    a string-keyed value is written with `$acc[$k] = $v`.
   */
  function MergeEntries(acc: seq<Entry>, next: int, s: seq<Entry>): seq<Entry>
    decreases |s|
  {
    if s == [] then acc
    else if s[0].key.IntKey? then MergeEntries(acc + [Entry(IntKey(next), s[0].val)], next + 1, s[1..])
    else MergeEntries(Put(acc, s[0].key, s[0].val), next, s[1..])
  }

  /** `array_merge($a, $b)` */
  function ArrayMerge(a: seq<Entry>, b: seq<Entry>): seq<Entry> {
    MergeEntries([], 0, a + b)
  }

  lemma {:induction false} IntValuesConcat(a: seq<Entry>, b: seq<Entry>)
    ensures IntValues(a + b) == IntValues(a) + IntValues(b)
  {
    if |a| > 0 {
      var t := a[1..];
      assert (a + b)[1..] == t + b;
      IntValuesConcat(t, b);
      var h := if a[0].key.IntKey? then [a[0].val] else [];
      calc {
        IntValues(a + b);
        h + IntValues(t + b);
        h + (IntValues(t) + IntValues(b));
        (h + IntValues(t)) + IntValues(b);
      }
    } else {
      assert a + b == b;
    }
  }

  lemma {:induction false} IntKeyListConcat(a: seq<Entry>, b: seq<Entry>)
    ensures IntKeyList(a + b) == IntKeyList(a) + IntKeyList(b)
  {
    if |a| > 0 {
      var t := a[1..];
      assert (a + b)[1..] == t + b;
      IntKeyListConcat(t, b);
      var h := if a[0].key.IntKey? then [a[0].key.n] else [];
      calc {
        IntKeyList(a + b);
        h + IntKeyList(t + b);
        h + (IntKeyList(t) + IntKeyList(b));
        (h + IntKeyList(t)) + IntKeyList(b);
      }
    } else {
      assert a + b == b;
    }
  }

  /** Writing a string key leaves the integer-keyed part of an array alone. */
  lemma {:induction false} PutStringKeepsInts(es: seq<Entry>, k: Key, v: Value)
    requires k.StrKey?
    ensures IntValues(Put(es, k, v)) == IntValues(es)
    ensures IntKeyList(Put(es, k, v)) == IntKeyList(es)
  {
    if es == [] {
      assert Put(es, k, v) == [Entry(k, v)] + [];
    } else if es[0].key == k {
      assert Put(es, k, v) == [Entry(k, v)] + es[1..];
    } else {
      PutStringKeepsInts(es[1..], k, v);
      assert Put(es, k, v) == [es[0]] + Put(es[1..], k, v);
    }
  }

  lemma {:induction false} MergeEntriesConcat(acc: seq<Entry>, next: int, a: seq<Entry>, b: seq<Entry>)
    ensures MergeEntries(acc, next, a + b)
         == MergeEntries(MergeEntries(acc, next, a), next + |IntValues(a)|, b)
    decreases |a|
  {
    if |a| == 0 {
      assert a + b == b;
    } else {
      var t := a[1..];
      assert (a + b)[0] == a[0] && (a + b)[1..] == t + b;
      if a[0].key.IntKey? {
        var acc' := acc + [Entry(IntKey(next), a[0].val)];
        assert IntValues(a) == [a[0].val] + IntValues(t);
        calc {
          MergeEntries(acc, next, a + b);
          MergeEntries(acc', next + 1, t + b);
          { MergeEntriesConcat(acc', next + 1, t, b); }
          MergeEntries(MergeEntries(acc', next + 1, t), next + 1 + |IntValues(t)|, b);
        }
      } else {
        var acc' := Put(acc, a[0].key, a[0].val);
        assert IntValues(a) == IntValues(t);
        calc {
          MergeEntries(acc, next, a + b);
          MergeEntries(acc', next, t + b);
          { MergeEntriesConcat(acc', next, t, b); }
          MergeEntries(MergeEntries(acc', next, t), next + |IntValues(t)|, b);
        }
      }
    }
  }

  lemma {:induction false} PutAppends(es: seq<Entry>, k: Key, v: Value)
    requires !HasKey(es, k)
    ensures Put(es, k, v) == es + [Entry(k, v)]
  {
    if es != [] {
      assert KeysOf(es) == [es[0].key] + KeysOf(es[1..]);
      PutAppends(es[1..], k, v);
      assert es == [es[0]] + es[1..];
    }
  }

  lemma {:induction false} LookupAppendTail(acc: seq<Entry>, e: Entry, k: Key)
    requires e.key != k
    ensures Lookup(acc + [e], k) == Lookup(acc, k)
  {
    if acc == [] {
      assert acc + [e] == [e];
    } else {
      assert (acc + [e])[0] == acc[0] && (acc + [e])[1..] == acc[1..] + [e];
      LookupAppendTail(acc[1..], e, k);
    }
  }

  /** A string key of the merged-in part reads back its value; any other string key the accumulator's. */
  lemma {:induction false} MergeEntriesStringLookup(acc: seq<Entry>, next: int, s: seq<Entry>, k: Key)
    requires k.StrKey? && UniqueKeys(s)
    ensures Lookup(MergeEntries(acc, next, s), k) == if HasKey(s, k) then Lookup(s, k) else Lookup(acc, k)
    decreases |s|
  {
    if s != [] {
      UniqueTail(s);
      assert KeysOf(s) == [s[0].key] + KeysOf(s[1..]);
      if s[0].key.IntKey? {
        var acc' := acc + [Entry(IntKey(next), s[0].val)];
        MergeEntriesStringLookup(acc', next + 1, s[1..], k);
        LookupAppendTail(acc, Entry(IntKey(next), s[0].val), k);
      } else {
        MergeEntriesStringLookup(Put(acc, s[0].key, s[0].val), next, s[1..], k);
        if s[0].key == k { PutSame(acc, k, s[0].val); } else { PutOther(acc, s[0].key, s[0].val, k); }
      }
    }
  }

  lemma {:induction false} MergeEntriesInts(acc: seq<Entry>, next: int, s: seq<Entry>)
    ensures IntValues(MergeEntries(acc, next, s)) == IntValues(acc) + IntValues(s)
    ensures IntKeyList(MergeEntries(acc, next, s)) == IntKeyList(acc) + seq(|IntValues(s)|, i => next + i)
    decreases |s|
  {
    if s == [] {
      assert seq(0, i => next + i) == [];
    } else {
      var e := Entry(IntKey(next), s[0].val);
      if s[0].key.IntKey? {
        MergeEntriesInts(acc + [e], next + 1, s[1..]);
        IntValuesConcat(acc, [e]);
        IntKeyListConcat(acc, [e]);
        assert IntValues([e]) == [e.val] && IntKeyList([e]) == [next];
        assert IntValues(s) == [s[0].val] + IntValues(s[1..]);
        assert [next] + seq(|IntValues(s[1..])|, i => next + 1 + i) == seq(|IntValues(s)|, i => next + i);
      } else {
        MergeEntriesInts(Put(acc, s[0].key, s[0].val), next, s[1..]);
        PutStringKeepsInts(acc, s[0].key, s[0].val);
        assert IntValues(s) == IntValues(s[1..]);
      }
    }
  }

  /** Every key `array_merge`'s loop writes is new or a string key: the result is a PHP array. */
  lemma {:induction false} MergeEntriesUnique(acc: seq<Entry>, next: int, s: seq<Entry>)
    requires UniqueKeys(acc)
    requires forall e :: e in acc && e.key.IntKey? ==> e.key.n < next
    ensures UniqueKeys(MergeEntries(acc, next, s))
    decreases |s|
  {
    if s != [] {
      if s[0].key.IntKey? {
        var acc' := acc + [Entry(IntKey(next), s[0].val)];
        forall i, j | 0 <= i < j < |acc'| ensures acc'[i].key != acc'[j].key {
          if j == |acc| {
            assert acc'[i] == acc[i] && acc[i] in acc;
          } else {
            assert acc'[i] == acc[i] && acc'[j] == acc[j];
          }
        }
        MergeEntriesUnique(acc', next + 1, s[1..]);
      } else {
        var acc' := Put(acc, s[0].key, s[0].val);
        PutUniqueKeys(acc, s[0].key, s[0].val);
        PutMembers(acc, s[0].key, s[0].val);
        MergeEntriesUnique(acc', next, s[1..]);
      }
    }
  }

  /** array_merge: a string key of `b` takes `b`'s value; any other string key keeps `a`'s. */
  lemma ArrayMergeStringKeys(a: seq<Entry>, b: seq<Entry>, k: Key)
    requires UniqueKeys(a) && UniqueKeys(b) && k.StrKey?
    ensures Lookup(ArrayMerge(a, b), k) == if HasKey(b, k) then Lookup(b, k) else Lookup(a, k)
  {
    MergeEntriesConcat([], 0, a, b);
    MergeEntriesStringLookup(MergeEntries([], 0, a), |IntValues(a)|, b, k);
    MergeEntriesStringLookup([], 0, a, k);
    LookupHasKey(a, k);
  }

  /**
    array_merge: the integer-keyed values of `a` and then of `b` are all kept,
    in that order, renumbered 0, 1, 2, ...; none is overwritten.
   */
  lemma ArrayMergeIntegerKeys(a: seq<Entry>, b: seq<Entry>)
    ensures IntValues(ArrayMerge(a, b)) == IntValues(a) + IntValues(b)
    ensures IntKeyList(ArrayMerge(a, b)) == Naturals(|IntValues(a)| + |IntValues(b)|)
  {
    MergeEntriesInts([], 0, a + b);
    IntValuesConcat(a, b);
    var n := |IntValues(a + b)|;
    assert IntKeyList([]) + seq(n, i => 0 + i) == Naturals(n);
  }

  /** array_merge always yields an array without duplicate keys. */
  lemma ArrayMergeUniqueKeys(a: seq<Entry>, b: seq<Entry>)
    ensures UniqueKeys(ArrayMerge(a, b))
  {
    MergeEntriesUnique([], 0, a + b);
  }
}
