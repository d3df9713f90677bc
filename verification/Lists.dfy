/** Lists without repetition, as the sets of their elements. */
module Lists {

  ghost function Elements<T(!new)>(s: seq<T>): set<T> { set x | x in s }

  ghost predicate Distinct<T>(s: seq<T>) { forall i, j | 0 <= i < j < |s| :: s[i] != s[j] }

  // Removal that keeps the order.
  function Without<T>(s: seq<T>, i: nat): seq<T>
    requires i < |s|
  {
    s[..i] + s[i + 1..]
  }

  lemma WithoutIs<T(!new)>(s: seq<T>, i: nat)
    requires i < |s| && Distinct(s)
    ensures Elements(Without(s, i)) == Elements(s) - {s[i]} && Distinct(Without(s, i))
  {
    var t := Without(s, i);
    forall x ensures x in t <==> x in s && x != s[i] {
      if x in s && x != s[i] {
        var j :| 0 <= j < |s| && s[j] == x;
        assert t[if j < i then j else j - 1] == x;
      }
    }
  }

  /** The last element takes the place of the removed one (src/TinyVector.h, Remove). */
  function SwapRemove<T>(s: seq<T>, i: nat): (t: seq<T>)
    requires i < |s|
    ensures |t| == |s| - 1
  {
    s[i := s[|s| - 1]][..|s| - 1]
  }

  lemma SwapRemoveElements<T>(s: seq<T>, i: nat)
    requires i < |s| && Distinct(s)
    ensures Distinct(SwapRemove(s, i))
    ensures forall x :: x in SwapRemove(s, i) <==> x in s && x != s[i]
    ensures SwapRemove(s, i)[..i] == s[..i]
  {
    var t := SwapRemove(s, i);
    forall x ensures x in t <==> x in s && x != s[i] {
      if x in s && x != s[i] {
        var j :| 0 <= j < |s| && s[j] == x;
        assert t[if j == |s| - 1 then i else j] == x;
      }
    }
  }

  lemma SwapRemoveIs<T(!new)>(s: seq<T>, i: nat)
    requires i < |s| && Distinct(s)
    ensures Elements(SwapRemove(s, i)) == Elements(s) - {s[i]} && Distinct(SwapRemove(s, i))
  {
    SwapRemoveElements(s, i);
  }

  lemma PushIs<T(!new)>(s: seq<T>, x: T)
    ensures Elements(s + [x]) == Elements(s) + {x}
    ensures Distinct(s) && x !in s ==> Distinct(s + [x])
  {
    forall y ensures y in s + [x] <==> y in s || y == x {
      if y == x {
        assert (s + [x])[|s|] == y;
      } else if y in s {
        var j :| 0 <= j < |s| && s[j] == y;
        assert (s + [x])[j] == y;
      }
    }
  }

  lemma NotBefore<T(!new)>(s: seq<T>, i: nat)
    requires Distinct(s) && i < |s|
    ensures Elements(s[..i]) <= Elements(s) && s[i] in Elements(s) - Elements(s[..i])
  {
  }

  lemma ElementsAre<T(!new)>(s: seq<T>, t: seq<T>, x: T)
    requires Elements(t) == Elements(s) - {x}
    ensures forall y :: y in t <==> y in s && y != x
  {
    forall y ensures y in t <==> y in s && y != x {
      assert y in Elements(t) <==> y in t;
      assert y in Elements(s) <==> y in s;
    }
  }
}
