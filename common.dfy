/** Small shared vocabulary: an optional value, taking elements out of sequences, and facts about sequences without repeats. */
module Common {

  /** A value that may be absent (`null` / `undefined` in the modelled code). */
  datatype Option<+T> = None | Some(value: T)

  /** The elements of an optional value, as a set of at most one element. */
  function AsSet<T>(o: Option<T>): (s: set<T>)
    ensures |s| <= 1
    ensures o.Some? ==> s == {o.value}
    ensures o.None? ==> s == {}
  {
    match o
    case None => {}
    case Some(x) => {x}
  }

  /** No element occurs twice. */
  ghost predicate Distinct<T>(s: seq<T>) {
    forall i, j | 0 <= i < j < |s| :: s[i] != s[j]
  }

  /** `s` with every occurrence of `x` taken out, order of the rest kept. */
  function Without<T(==)>(s: seq<T>, x: T): (r: seq<T>)
    ensures |r| <= |s|
    ensures forall y | y in r :: y in s && y != x
    ensures forall y | y in s && y != x :: y in r
  {
    if s == [] then []
    else if s[0] == x then Without(s[1..], x)
    else [s[0]] + Without(s[1..], x)
  }

  /** Taking out an element that is absent changes nothing. */
  lemma {:induction false} WithoutAbsent<T>(s: seq<T>, x: T)
    requires x !in s
    ensures Without(s, x) == s
  {
    if s != [] {
      WithoutAbsent(s[1..], x);
      assert s == [s[0]] + s[1..];
    }
  }

  /** Taking an element out of a concatenation takes it out of each part. */
  lemma {:induction false} WithoutConcat<T>(a: seq<T>, b: seq<T>, x: T)
    ensures Without(a + b, x) == Without(a, x) + Without(b, x)
  {
    if a == [] {
      assert [] + b == b;
    } else {
      assert (a + b)[0] == a[0] && (a + b)[1..] == a[1..] + b;
      WithoutConcat(a[1..], b, x);
    }
  }

  /** The elements of `s` that are not in `gone`, in their order in `s`. */
  function Filtered<T>(s: seq<T>, gone: set<T>): (r: seq<T>)
    ensures |r| <= |s|
    ensures forall y | y in r :: y in s && y !in gone
    ensures forall y | y in s && y !in gone :: y in r
    decreases |s|
  {
    if s == [] then []
    else (if s[0] in gone then [] else [s[0]]) + Filtered(s[1..], gone)
  }

  /** Filtering out nothing keeps the sequence as it is. */
  lemma {:induction false} FilteredNothing<T>(s: seq<T>)
    ensures Filtered(s, {}) == s
  {
    if s != [] {
      FilteredNothing(s[1..]);
      assert s == [s[0]] + s[1..];
    }
  }

  /** Taking one more element out of a filtered sequence is filtering out one more element. */
  lemma {:induction false} FilteredWithout<T>(s: seq<T>, gone: set<T>, x: T)
    ensures Without(Filtered(s, gone), x) == Filtered(s, gone + {x})
  {
    if s != [] {
      FilteredWithout(s[1..], gone, x);
      var head := if s[0] in gone then [] else [s[0]];
      WithoutConcat(head, Filtered(s[1..], gone), x);
      if s[0] !in gone {
        assert [s[0]][1..] == [];
      }
    }
  }

  /** Appending a fresh element and taking it out again gives back the original sequence. */
  lemma {:induction false} WithoutAppended<T>(s: seq<T>, x: T)
    requires x !in s
    ensures Without(s + [x], x) == s
  {
    if s == [] {
      assert [] + [x] == [x];
      assert [x][1..] == [];
    } else {
      assert (s + [x])[1..] == s[1..] + [x];
      WithoutAppended(s[1..], x);
      assert s == [s[0]] + s[1..];
    }
  }

  /** Taking out an element keeps a sequence free of repeats. */
  lemma {:induction false} WithoutDistinct<T>(s: seq<T>, x: T)
    requires Distinct(s)
    ensures Distinct(Without(s, x))
  {
    if s != [] {
      assert Distinct(s[1..]) by {
        forall i, j | 0 <= i < j < |s[1..]| ensures s[1..][i] != s[1..][j] {
          assert s[1..][i] == s[i + 1] && s[1..][j] == s[j + 1];
        }
      }
      WithoutDistinct(s[1..], x);
      if s[0] != x {
        var r := Without(s[1..], x);
        assert s[0] !in s[1..];
        assert s[0] !in r;
        forall i, j | 0 <= i < j < |[s[0]] + r| ensures ([s[0]] + r)[i] != ([s[0]] + r)[j] {
          if i > 0 {
            assert ([s[0]] + r)[i] == r[i - 1];
          }
          assert ([s[0]] + r)[j] == r[j - 1];
        }
      }
    }
  }

  /** The elements of a sequence as a set. */
  function Elements<T>(s: seq<T>): set<T> {
    set x | x in s
  }

  /** Concatenation is associative. */
  lemma AppendAssoc<T>(a: seq<T>, b: seq<T>, c: seq<T>)
    ensures (a + b) + c == a + (b + c)
  {
  }

  /** The elements of a one-longer prefix are those of the prefix and the next element. */
  lemma ElementsStep<T>(s: seq<T>, i: nat)
    requires i < |s|
    ensures Elements(s[..i + 1]) == Elements(s[..i]) + {s[i]}
  {
    assert s[..i + 1] == s[..i] + [s[i]];
  }

  /** The elements of a non-empty sequence are its head and the elements of its tail. */
  lemma ElementsCons<T>(s: seq<T>)
    requires s != []
    ensures Elements(s) == {s[0]} + Elements(s[1..])
  {
    assert s == [s[0]] + s[1..];
  }

  /** A sequence without repeats has as many distinct elements as it has positions. */
  lemma {:induction false} DistinctCardinality<T>(s: seq<T>)
    requires Distinct(s)
    ensures |Elements(s)| == |s|
  {
    if s != [] {
      var t := s[..|s| - 1];
      assert Distinct(t) by {
        forall i, j | 0 <= i < j < |t| ensures t[i] != t[j] {
          assert t[i] == s[i] && t[j] == s[j];
        }
      }
      DistinctCardinality(t);
      assert s == t + [s[|s| - 1]];
      assert s[|s| - 1] !in t by {
        forall i | 0 <= i < |t| ensures t[i] != s[|s| - 1] {
          assert t[i] == s[i];
        }
      }
      assert Elements(s) == Elements(t) + {s[|s| - 1]};
    }
  }
}
