/** Kernel list_head lists of distinct entries, as sequences. */
module Lists {

  ghost predicate NoDup<T>(s: seq<T>) { forall i, j | 0 <= i < j < |s| :: s[i] != s[j] }

  /** list_del */
  function Del<T(==)>(s: seq<T>, x: T): seq<T> {
    if s == [] then [] else if s[0] == x then s[1..] else [s[0]] + Del(s[1..], x)
  }

  lemma {:induction false} DelFacts<T>(s: seq<T>, x: T)
    requires NoDup(s)
    ensures NoDup(Del(s, x))
    ensures forall y :: y in Del(s, x) <==> y in s && y != x
    ensures |Del(s, x)| == |s| - (if x in s then 1 else 0)
  {
    if s != [] {
      assert s == [s[0]] + s[1..];
      if s[0] != x {
        DelFacts(s[1..], x);
        assert s[0] !in Del(s[1..], x);
      }
    }
  }

  lemma {:induction false} DelAbsent<T>(s: seq<T>, x: T)
    ensures x !in s ==> Del(s, x) == s
  {
    if s != [] { DelAbsent(s[1..], x); }
  }

  lemma NoDupConcat<T>(s: seq<T>, t: seq<T>)
    requires NoDup(s) && NoDup(t) && forall x :: x in s ==> x !in t
    ensures NoDup(s + t) && NoDup(t + s)
  {
    forall i, j | 0 <= i < j < |s| + |t| ensures (s + t)[i] != (s + t)[j] {
      if i < |s| <= j {
        assert (s + t)[i] in s && (s + t)[j] in t;
      }
    }
    forall i, j | 0 <= i < j < |s| + |t| ensures (t + s)[i] != (t + s)[j] {
      if i < |t| <= j {
        assert (t + s)[i] in t && (t + s)[j] in s;
      }
    }
  }

  ghost function Reversed<T>(s: seq<T>): seq<T> { if s == [] then [] else Reversed(s[1..]) + [s[0]] }

  ghost function Elems<T>(s: seq<T>): set<T> { set x | x in s }

  lemma {:induction false} ElemsCount<T>(s: seq<T>)
    requires NoDup(s)
    ensures |Elems(s)| == |s|
  {
    if s != [] {
      ElemsCount(s[1..]);
      assert s == [s[0]] + s[1..];
      assert Elems(s) == {s[0]} + Elems(s[1..]);
    }
  }
}
