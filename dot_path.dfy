/**
  Dot-separated paths into nested arrays: `explode('.', $path)` and
  Laravel's `Arr::set($array, $path, $value)`, which `Resources::deepSet`
  delegates to. Path segments are literal; a dot cannot be escaped.
 */
module DotPath {
  import opened Wrappers
  import opened PhpArrays

  /** `explode('.', $s)`: the pieces between the dots; never empty. */
  function SplitDots(s: string): (segs: seq<string>)
    ensures |segs| >= 1
    decreases |s|
  {
    if |s| == 0 then [""]
    else
      var rest := SplitDots(s[1..]);
      if s[0] == '.' then [""] + rest else [[s[0]] + rest[0]] + rest[1..]
  }

  /** `implode('.', $segs)` */
  function JoinDots(segs: seq<string>): string
    decreases |segs|
  {
    if |segs| == 0 then ""
    else if |segs| == 1 then segs[0]
    else segs[0] + "." + JoinDots(segs[1..])
  }

  /** Splitting then joining gives back the path, and no piece holds a dot. */
  lemma {:induction false} SplitDotsJoin(s: string)
    ensures JoinDots(SplitDots(s)) == s
    ensures forall i :: 0 <= i < |SplitDots(s)| ==> '.' !in SplitDots(s)[i]
    decreases |s|
  {
    if |s| > 0 {
      var rest := SplitDots(s[1..]);
      SplitDotsJoin(s[1..]);
      if s[0] == '.' {
        assert SplitDots(s) == [""] + rest;
        assert ([""] + rest)[1..] == rest;
        assert s == "" + "." + s[1..];
      } else {
        var segs := SplitDots(s);
        assert segs == [[s[0]] + rest[0]] + rest[1..];
        forall i | 0 <= i < |segs| ensures '.' !in segs[i] {
          if i > 0 { assert segs[i] == rest[i]; }
          else {
            assert '.' !in rest[0];
            forall j | 0 < j < |segs[0]| ensures segs[0][j] != '.' {
              assert segs[0][j] == rest[0][j - 1];
            }
          }
        }
        if |rest| == 1 {
          assert s == [s[0]] + s[1..];
        } else {
          assert segs[1..] == rest[1..];
          assert JoinDots(rest) == rest[0] + "." + JoinDots(rest[1..]);
          assert s == [s[0]] + s[1..];
        }
      }
    }
  }

  /** A path without a dot is a single segment. */
  lemma {:induction false} SplitDotsNone(s: string)
    requires '.' !in s
    ensures SplitDots(s) == [s]
    decreases |s|
  {
    if |s| > 0 {
      assert '.' !in s[1..] by {
        forall j | 0 <= j < |s[1..]| ensures s[1..][j] != '.' {
          assert s[1..][j] == s[j + 1];
        }
      }
      SplitDotsNone(s[1..]);
      assert s == [s[0]] + s[1..];
    }
  }

  /** The segments of `a.b` are those of `a` followed by those of `b`. */
  lemma {:induction false} SplitDotsConcat(a: string, b: string)
    ensures SplitDots(a + "." + b) == SplitDots(a) + SplitDots(b)
    decreases |a|
  {
    if |a| == 0 {
      assert a + "." + b == "." + b;
      assert ("." + b)[1..] == b;
    } else {
      var s := a + "." + b;
      assert s[0] == a[0] && s[1..] == a[1..] + "." + b;
      SplitDotsConcat(a[1..], b);
      var ra := SplitDots(a[1..]);
      if a[0] != '.' {
        assert (ra + SplitDots(b))[0] == ra[0];
        assert (ra + SplitDots(b))[1..] == ra[1..] + SplitDots(b);
      }
    }
  }

  /** The keys `Arr::set` writes under for the path `path`: each segment cast as an array offset. */
  function PathKeys(path: string): (ks: seq<Key>)
    ensures |ks| == |SplitDots(path)|
  {
    var segs := SplitDots(path);
    seq(|segs|, i requires 0 <= i < |segs| => KeyOf(segs[i]))
  }

  lemma PathKeysConcat(a: string, b: string)
    ensures PathKeys(a + "." + b) == PathKeys(a) + PathKeys(b)
  {
    SplitDotsConcat(a, b);
    var sa, sb := SplitDots(a), SplitDots(b);
    assert SplitDots(a + "." + b) == sa + sb;
    forall i | 0 <= i < |sa| + |sb|
      ensures PathKeys(a + "." + b)[i] == (PathKeys(a) + PathKeys(b))[i]
    {
      if i < |sa| { assert (sa + sb)[i] == sa[i]; } else { assert (sa + sb)[i] == sb[i - |sa|]; }
    }
  }

  lemma PathKeysSingle(s: string)
    requires '.' !in s
    ensures PathKeys(s) == [KeyOf(s)]
  {
    SplitDotsNone(s);
  }

  /** The array found under a key, the way `Arr::set` sees it: anything that is not an array counts as `[]`. */
  function ChildEntries(o: Option<Value>): seq<Entry> {
    match o
    case Some(Arr(c)) => c
    case _ => []
  }

  /**
    `Arr::set($array, $path, $value)` for the segment keys `p`: every level
    but the last is made an array when it is missing, null or not an array,
    and the value is written at the last level.
   */
  function SetPath(es: seq<Entry>, p: seq<Key>, x: Value): seq<Entry>
    requires |p| >= 1
    decreases |p|
  {
    if |p| == 1 then Put(es, p[0], x)
    else Put(es, p[0], Arr(SetPath(ChildEntries(Lookup(es, p[0])), p[1..], x)))
  }

  /** Reading along the keys `p`, one `$a[$k]` per level; None when a level is missing or not an array. */
  function GetPath(es: seq<Entry>, p: seq<Key>): Option<Value>
    requires |p| >= 1
    decreases |p|
  {
    match Lookup(es, p[0])
    case None => None
    case Some(v) =>
      if |p| == 1 then Some(v)
      else if v.Arr? then GetPath(v.entries, p[1..])
      else None
  }

  /** After `Arr::set`, walking the same path reads back the value written. */
  lemma {:induction false} SetPathThenGet(es: seq<Entry>, p: seq<Key>, x: Value)
    requires |p| >= 1
    ensures GetPath(SetPath(es, p, x), p) == Some(x)
    decreases |p|
  {
    if |p| == 1 {
      PutSame(es, p[0], x);
    } else {
      var inner := SetPath(ChildEntries(Lookup(es, p[0])), p[1..], x);
      PutSame(es, p[0], Arr(inner));
      SetPathThenGet(ChildEntries(Lookup(es, p[0])), p[1..], x);
    }
  }

  /** After `Arr::set`, every level above the last is an array, whatever stood there before. */
  lemma {:induction false} SetPathMakesArrays(es: seq<Entry>, p: seq<Key>, x: Value, j: nat)
    requires 1 <= j < |p|
    ensures GetPath(SetPath(es, p, x), p[..j]).Some?
    ensures GetPath(SetPath(es, p, x), p[..j]).value.Arr?
    decreases |p|
  {
    var inner := SetPath(ChildEntries(Lookup(es, p[0])), p[1..], x);
    PutSame(es, p[0], Arr(inner));
    if j > 1 {
      SetPathMakesArrays(ChildEntries(Lookup(es, p[0])), p[1..], x, j - 1);
      assert p[..j][1..] == p[1..][..j - 1];
    }
  }

  /** `Arr::set` leaves every top-level key off the path alone. */
  lemma SetPathOther(es: seq<Entry>, p: seq<Key>, x: Value, k: Key)
    requires |p| >= 1 && k != p[0]
    ensures Lookup(SetPath(es, p, x), k) == Lookup(es, k)
  {
    if |p| == 1 {
      PutOther(es, p[0], x, k);
    } else {
      PutOther(es, p[0], Arr(SetPath(ChildEntries(Lookup(es, p[0])), p[1..], x)), k);
    }
  }

  /**
    `Arr::set` leaves every sibling of the path alone at every depth: below
    the first `j` keys, a key other than `p[j]` reads what it read before
    (nothing, when that level was not an array).
   */
  lemma {:induction false} SetPathSiblings(es: seq<Entry>, p: seq<Key>, x: Value, j: nat, k: Key)
    requires 1 <= j < |p| && k != p[j]
    ensures GetPath(SetPath(es, p, x), p[..j] + [k]) == Lookup(ChildEntries(GetPath(es, p[..j])), k)
    decreases |p|
  {
    var child := ChildEntries(Lookup(es, p[0]));
    var inner := SetPath(child, p[1..], x);
    PutSame(es, p[0], Arr(inner));
    assert (p[..j] + [k])[0] == p[0];
    assert (p[..j] + [k])[1..] == p[1..][..j - 1] + [k];
    if j == 1 {
      SetPathOther(child, p[1..], x, k);
      assert p[..1] == [p[0]];
    } else {
      SetPathSiblings(child, p[1..], x, j - 1, k);
      assert p[..j][1..] == p[1..][..j - 1];
      match Lookup(es, p[0])
      case None =>
        assert GetPath(child, p[1..][..j - 1]) == None;
      case Some(v) =>
        if !v.Arr? {
          assert GetPath(child, p[1..][..j - 1]) == None;
        }
    }
  }

  /** The value under the first key after `Arr::set` depends only on what was under that key before. */
  lemma SetPathHeadOnly(es1: seq<Entry>, es2: seq<Entry>, p: seq<Key>, x: Value)
    requires |p| >= 1 && Lookup(es1, p[0]) == Lookup(es2, p[0])
    ensures Lookup(SetPath(es1, p, x), p[0]) == Lookup(SetPath(es2, p, x), p[0])
  {
    if |p| == 1 {
      PutSame(es1, p[0], x);
      PutSame(es2, p[0], x);
    } else {
      var inner := SetPath(ChildEntries(Lookup(es1, p[0])), p[1..], x);
      PutSame(es1, p[0], Arr(inner));
      PutSame(es2, p[0], Arr(inner));
    }
  }

  /** `Arr::set` keeps the top-level key order; a new first key is appended. */
  lemma SetPathKeys(es: seq<Entry>, p: seq<Key>, x: Value)
    requires |p| >= 1
    ensures KeysOf(SetPath(es, p, x)) == if HasKey(es, p[0]) then KeysOf(es) else KeysOf(es) + [p[0]]
  {
    if |p| == 1 {
      PutKeys(es, p[0], x);
    } else {
      PutKeys(es, p[0], Arr(SetPath(ChildEntries(Lookup(es, p[0])), p[1..], x)));
    }
  }

  lemma SetPathUniqueKeys(es: seq<Entry>, p: seq<Key>, x: Value)
    requires |p| >= 1 && UniqueKeys(es)
    ensures UniqueKeys(SetPath(es, p, x))
  {
    if |p| == 1 {
      PutUniqueKeys(es, p[0], x);
    } else {
      PutUniqueKeys(es, p[0], Arr(SetPath(ChildEntries(Lookup(es, p[0])), p[1..], x)));
    }
  }
}
