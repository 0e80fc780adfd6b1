/**
 * Python's ordering of cell values and `sorted(series.unique())`: the
 * distinct values of a column in increasing order.
 */
module ValueOrder {
  import opened Records

  /** Python's `<` on `str`: code point by code point, a proper prefix first. */
  predicate StrBelow(s: string, t: string)
    decreases |s|
  {
    if s == [] then t != []
    else t != [] && (s[0] < t[0] || (s[0] == t[0] && StrBelow(s[1..], t[1..])))
  }

  /**
   * `<` on cells. A column holds one kind of value, so the order between a
   * number and a text (a TypeError in Python) never decides anything; it is
   * fixed here only to make the order total.
   */
  predicate Below(a: Value, b: Value)
  {
    match (a, b)
    case (Num(x), Num(y)) => x < y
    case (Num(_), Text(_)) => true
    case (Text(_), Num(_)) => false
    case (Text(s), Text(t)) => StrBelow(s, t)
  }

  lemma {:induction false} StrBelowIrreflexive(s: string)
    ensures !StrBelow(s, s)
    decreases |s|
  {
    if s != [] {
      StrBelowIrreflexive(s[1..]);
    }
  }

  lemma {:induction false} StrBelowTransitive(s: string, t: string, u: string)
    requires StrBelow(s, t) && StrBelow(t, u)
    ensures StrBelow(s, u)
    decreases |s|
  {
    if s != [] && s[0] == t[0] && t[0] == u[0] {
      StrBelowTransitive(s[1..], t[1..], u[1..]);
    }
  }

  lemma {:induction false} StrBelowTotal(s: string, t: string)
    requires s != t
    ensures StrBelow(s, t) || StrBelow(t, s)
    decreases |s|
  {
    if s != [] && t != [] && s[0] == t[0] {
      assert s == [s[0]] + s[1..] && t == [t[0]] + t[1..];
      StrBelowTotal(s[1..], t[1..]);
    }
  }

  lemma BelowIrreflexive(a: Value)
    ensures !Below(a, a)
  {
    if a.Text? {
      StrBelowIrreflexive(a.s);
    }
  }

  lemma BelowTransitive(a: Value, b: Value, c: Value)
    requires Below(a, b) && Below(b, c)
    ensures Below(a, c)
  {
    if a.Text? && b.Text? && c.Text? {
      StrBelowTransitive(a.s, b.s, c.s);
    }
  }

  lemma BelowTotal(a: Value, b: Value)
    requires a != b
    ensures Below(a, b) || Below(b, a)
  {
    if a.Text? && b.Text? {
      StrBelowTotal(a.s, b.s);
    }
  }

  /** Increasing, and therefore without repetitions. */
  predicate StrictlySorted(s: seq<Value>)
  {
    forall i, j :: 0 <= i < j < |s| ==> Below(s[i], s[j])
  }

  lemma StrictlySortedDistinct(s: seq<Value>, i: int, j: int)
    requires StrictlySorted(s) && 0 <= i < |s| && 0 <= j < |s| && i != j
    ensures s[i] != s[j]
  {
    if i < j {
      BelowIrreflexive(s[i]);
    } else {
      BelowIrreflexive(s[j]);
    }
  }

  /** Put `x` at its place in an increasing sequence, unless it is there already. */
  function Insert(x: Value, s: seq<Value>): (r: seq<Value>)
    requires StrictlySorted(s)
    ensures StrictlySorted(r)
    ensures forall v :: v in r <==> v in s || v == x
  {
    if s == [] then [x]
    else if x == s[0] then s
    else if Below(x, s[0]) then
      assert forall j :: 0 < j < |s| ==> Below(x, s[j]) by {
        forall j | 0 < j < |s| ensures Below(x, s[j]) {
          BelowTransitive(x, s[0], s[j]);
        }
      }
      [x] + s
    else
      BelowTotal(x, s[0]);
      var tail := Insert(x, s[1..]);
      assert forall j :: 0 <= j < |tail| ==> Below(s[0], tail[j]) by {
        forall j | 0 <= j < |tail| ensures Below(s[0], tail[j]) {
          assert tail[j] in tail;
          if tail[j] != x {
            var m :| 0 <= m < |s[1..]| && s[1..][m] == tail[j];
            assert s[m + 1] == tail[j];
          }
        }
      }
      assert forall v :: v in s <==> v == s[0] || v in s[1..] by {
        assert s == [s[0]] + s[1..];
      }
      [s[0]] + tail
  }

  /** `sorted(values.unique())`: the distinct values, in increasing order. */
  function SortedDistinct(vs: seq<Value>): (r: seq<Value>)
    ensures StrictlySorted(r)
    ensures forall v :: v in r <==> v in vs
  {
    if vs == [] then []
    else
      assert forall v :: v in vs <==> v in vs[1..] || v == vs[0] by {
        assert vs == [vs[0]] + vs[1..];
      }
      Insert(vs[0], SortedDistinct(vs[1..]))
  }

  /**
   * The sorted distinct values are determined by the values alone: any
   * increasing sequence holding exactly the same values is that one.
   */
  lemma {:induction false} SortedDistinctUnique(s: seq<Value>, t: seq<Value>)
    requires StrictlySorted(s) && StrictlySorted(t)
    requires forall v :: v in s <==> v in t
    ensures s == t
    decreases |s| + |t|, if s == [] then 1 else 0
  {
    if s == [] {
      if t != [] {
        SortedDistinctUnique(t, s);
      }
    } else {
      assert s[0] in t;
      assert t != [];
      assert t[0] in s;
      if s[0] != t[0] {
        var i :| 0 <= i < |s| && s[i] == t[0];
        var j :| 0 <= j < |t| && t[j] == s[0];
        assert i > 0 && j > 0;
        assert Below(s[0], s[i]) && Below(t[0], t[j]);
        BelowTransitive(s[0], t[0], s[0]);
        BelowIrreflexive(s[0]);
      }
      forall v ensures v in s[1..] <==> v in t[1..] {
        if v in s[1..] {
          var i :| 1 <= i < |s| && s[i] == v;
          assert Below(s[0], v);
          BelowIrreflexive(v);
          assert v in s && v in t;
          var j :| 0 <= j < |t| && t[j] == v;
          assert j != 0;
          assert t[1..][j - 1] == v;
        }
        if v in t[1..] {
          var j :| 1 <= j < |t| && t[j] == v;
          assert Below(t[0], v);
          BelowIrreflexive(v);
          assert v in t && v in s;
          var i :| 0 <= i < |s| && s[i] == v;
          assert i != 0;
          assert s[1..][i - 1] == v;
        }
      }
      SortedDistinctUnique(s[1..], t[1..]);
      assert s == [s[0]] + s[1..] && t == [t[0]] + t[1..];
    }
  }

  /** SortedDistinct is therefore the reference "sorted unique values" of a column. */
  lemma SortedDistinctCharacterised(vs: seq<Value>, s: seq<Value>)
    requires StrictlySorted(s) && forall v :: v in s <==> v in vs
    ensures s == SortedDistinct(vs)
  {
    SortedDistinctUnique(s, SortedDistinct(vs));
  }
}
