/**
  The order in which attribute names are laid out: `Object.keys(attrs).sort()`
  at lib/xattr-file.js:124, stated on names as byte strings. The order is
  lexicographic by byte value, a proper prefix coming first.
 */
module KeyOrder {
  import opened Bytes

  /** `a` sorts at or before `b`. */
  predicate LexLe(a: seq<Byte>, b: seq<Byte>)
    decreases |a|
  {
    |a| == 0 || (|b| > 0 && (a[0] < b[0] || (a[0] == b[0] && LexLe(a[1..], b[1..]))))
  }

  /** `a` sorts strictly before `b`. */
  predicate LexLt(a: seq<Byte>, b: seq<Byte>)
  {
    LexLe(a, b) && a != b
  }

  lemma {:induction false} LexLeReflexive(a: seq<Byte>)
    ensures LexLe(a, a)
    decreases |a|
  {
    if |a| > 0 {
      LexLeReflexive(a[1..]);
    }
  }

  lemma {:induction false} LexLeTotal(a: seq<Byte>, b: seq<Byte>)
    ensures LexLe(a, b) || LexLe(b, a)
    decreases |a|
  {
    if |a| > 0 && |b| > 0 && a[0] == b[0] {
      LexLeTotal(a[1..], b[1..]);
    }
  }

  lemma {:induction false} LexLeAntisymmetric(a: seq<Byte>, b: seq<Byte>)
    requires LexLe(a, b) && LexLe(b, a)
    ensures a == b
    decreases |a|
  {
    if |a| > 0 {
      LexLeAntisymmetric(a[1..], b[1..]);
      assert a == [a[0]] + a[1..] && b == [b[0]] + b[1..];
    }
  }

  lemma {:induction false} LexLeTransitive(a: seq<Byte>, b: seq<Byte>, c: seq<Byte>)
    requires LexLe(a, b) && LexLe(b, c)
    ensures LexLe(a, c)
    decreases |a|
  {
    if |a| > 0 && a[0] == b[0] && b[0] == c[0] {
      LexLeTransitive(a[1..], b[1..], c[1..]);
    }
  }

  /** `m` is the first of `names` in sort order. */
  predicate IsLeast(m: seq<Byte>, names: set<seq<Byte>>)
  {
    m in names && forall x :: x in names ==> LexLe(m, x)
  }

  /** Every non-empty finite set of names has a first element. */
  lemma {:induction false} LeastExists(names: set<seq<Byte>>)
    requires names != {}
    ensures exists m :: IsLeast(m, names)
    decreases |names|
  {
    var x :| x in names;
    LexLeReflexive(x);
    if names == {x} {
      assert IsLeast(x, names);
    } else {
      var rest := names - {x};
      LeastExists(rest);
      var m :| IsLeast(m, rest);
      LexLeTotal(x, m);
      if LexLe(x, m) {
        forall y | y in names
          ensures LexLe(x, y)
        {
          if y != x {
            LexLeTransitive(x, m, y);
          }
        }
        assert IsLeast(x, names);
      } else {
        assert IsLeast(m, names);
      }
    }
  }

  /** The first element of a set of names is unique. */
  lemma LeastUnique(names: set<seq<Byte>>)
    ensures forall m, m' :: IsLeast(m, names) && IsLeast(m', names) ==> m == m'
  {
    forall m, m' | IsLeast(m, names) && IsLeast(m', names)
      ensures m == m'
    {
      LexLeAntisymmetric(m, m');
    }
  }

  /**
    The names of a map, listed once each in the order of
    `Object.keys(attrs).sort()`: the first name, then the rest sorted.
   */
  function SortedKeys(names: set<seq<Byte>>): (r: seq<seq<Byte>>)
    ensures |r| == |names|
    ensures forall k :: k in r <==> k in names
    decreases |names|
  {
    if names == {} then []
    else
      LeastExists(names);
      LeastUnique(names);
      var m :| IsLeast(m, names);
      [m] + SortedKeys(names - {m})
  }

  /** The sorted names are strictly ascending, hence distinct. */
  lemma {:induction false} SortedKeysAscending(names: set<seq<Byte>>)
    ensures forall i, j :: 0 <= i < j < |SortedKeys(names)| ==> LexLt(SortedKeys(names)[i], SortedKeys(names)[j])
    decreases |names|
  {
    if names != {} {
      LeastExists(names);
      LeastUnique(names);
      var m :| IsLeast(m, names);
      var rest := SortedKeys(names - {m});
      SortedKeysAscending(names - {m});
      assert SortedKeys(names) == [m] + rest;
      forall i, j | 0 <= i < j < |SortedKeys(names)|
        ensures LexLt(SortedKeys(names)[i], SortedKeys(names)[j])
      {
        if i > 0 {
          assert SortedKeys(names)[i] == rest[i - 1] && SortedKeys(names)[j] == rest[j - 1];
        } else {
          assert rest[j - 1] in names - {m};
        }
      }
    }
  }
}
