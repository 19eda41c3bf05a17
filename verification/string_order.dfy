/** Python's `<` on strings (code point by code point, a proper prefix first),
    which orders the group keys of a `groupby`, and the sorted, duplicate-free
    key list such a grouping produces. */
module StringOrder {

  predicate Less(a: string, b: string) {
    if a == [] then b != []
    else b != [] && (a[0] < b[0] || (a[0] == b[0] && Less(a[1..], b[1..])))
  }

  lemma {:induction false} LessIrreflexive(a: string)
    ensures !Less(a, a)
  {
    if a != [] {
      LessIrreflexive(a[1..]);
    }
  }

  lemma {:induction false} LessTransitive(a: string, b: string, c: string)
    requires Less(a, b) && Less(b, c)
    ensures Less(a, c)
  {
    if a != [] && a[0] == b[0] && b[0] == c[0] {
      LessTransitive(a[1..], b[1..], c[1..]);
    }
  }

  lemma {:induction false} LessTotal(a: string, b: string)
    ensures a == b || Less(a, b) || Less(b, a)
  {
    if a != [] && b != [] && a[0] == b[0] {
      LessTotal(a[1..], b[1..]);
      if a[1..] == b[1..] {
        assert a == [a[0]] + a[1..] && b == [b[0]] + b[1..];
      }
    }
  }

  /** Strictly ascending, hence free of duplicates. */
  predicate StrictlySorted(s: seq<string>) {
    forall i, j :: 0 <= i < j < |s| ==> Less(s[i], s[j])
  }

  lemma StrictlySortedDistinct(s: seq<string>, i: int, j: int)
    requires StrictlySorted(s) && 0 <= i < |s| && 0 <= j < |s| && i != j
    ensures s[i] != s[j]
  {
    if i < j {
      LessIrreflexive(s[i]);
    } else {
      LessIrreflexive(s[j]);
    }
  }

  /** Adds `k` to a sorted key list, unless it is already there. */
  function Insert(k: string, s: seq<string>): (r: seq<string>)
    requires StrictlySorted(s)
    ensures StrictlySorted(r)
    ensures forall x :: x in r <==> x == k || x in s
  {
    if s == [] then [k]
    else if k == s[0] then s
    else if Less(k, s[0]) then
      assert forall j :: 0 < j < |s| ==> Less(k, s[j]) by {
        forall j | 0 < j < |s| {
          LessTransitive(k, s[0], s[j]);
        }
      }
      [k] + s
    else
      LessTotal(k, s[0]);
      var t := Insert(k, s[1..]);
      assert forall x :: x in s <==> x == s[0] || x in s[1..];
      assert forall j :: 0 <= j < |t| ==> Less(s[0], t[j]) by {
        forall j | 0 <= j < |t| ensures Less(s[0], t[j]) {
          assert t[j] in t;
          if t[j] != k {
            var m :| 1 <= m < |s| && s[m] == t[j];
          }
        }
      }
      [s[0]] + t
  }

  /** The distinct values of `keys`, in ascending order. */
  function SortedKeys(keys: seq<string>): (r: seq<string>)
    ensures StrictlySorted(r)
    ensures forall x :: x in r <==> x in keys
  {
    if keys == [] then []
    else
      var init := keys[..|keys| - 1];
      assert forall x :: x in keys <==> x == keys[|keys| - 1] || x in init by {
        assert keys == init + [keys[|keys| - 1]];
      }
      Insert(keys[|keys| - 1], SortedKeys(init))
  }

  /** A grouping whose values are all one key has that key alone. */
  lemma SortedKeysSingle(keys: seq<string>, k: string)
    requires keys != [] && forall i :: 0 <= i < |keys| ==> keys[i] == k
    ensures SortedKeys(keys) == [k]
  {
    var r := SortedKeys(keys);
    assert keys[0] in keys;
    assert k in r;
    if |r| > 1 {
      assert r[0] in keys && r[1] in keys;
      StrictlySortedDistinct(r, 0, 1);
    }
  }
}
