/**
 * Lists of references as the game manipulates them: removing the first occurrence of an
 * element, and the elements of a list that are not in another.
 */
module Lists {

  predicate Distinct<T(==)>(s: seq<T>) {
    forall i, j :: 0 <= i < j < |s| ==> s[i] != s[j]
  }

  /** s with the first occurrence of x removed; s itself when x does not occur. */
  function Without<T(==)>(s: seq<T>, x: T): seq<T> {
    if s == [] then []
    else if s[0] == x then s[1..]
    else [s[0]] + Without(s[1..], x)
  }

  /** The elements of s that are not in gone, in their order in s. */
  function Excluding<T(==)>(s: seq<T>, gone: seq<T>): seq<T> {
    if s == [] then []
    else Excluding(s[..|s| - 1], gone) + (if s[|s| - 1] in gone then [] else [s[|s| - 1]])
  }

  /**
   * Removing an element that occurs drops its first occurrence and nothing else; removing one
   * that does not occur changes nothing.
   */
  lemma {:induction false} WithoutRemovesOne<T>(s: seq<T>, x: T)
    ensures x !in s ==> Without(s, x) == s
    ensures x in s ==> |Without(s, x)| == |s| - 1
    ensures x in s ==> exists k :: 0 <= k < |s| && s[k] == x && (forall j :: 0 <= j < k ==> s[j] != x) &&
                                   Without(s, x) == s[..k] + s[k + 1..]
    ensures multiset(Without(s, x)) == multiset(s) - multiset{x}
    ensures forall i :: 0 <= i < |Without(s, x)| ==> Without(s, x)[i] in s
  {
    WithoutMultiset(s, x);
    if x in s {
      var k := WithoutDropsFirst(s, x);
      var r := Without(s, x);
      assert |r| == |s| - 1;
      forall i | 0 <= i < |r|
        ensures r[i] in s
      {
        assert r[i] == if i < k then s[i] else s[i + 1];
      }
    } else {
      WithoutAbsent(s, x);
    }
  }

  /** The position of the occurrence of x that removal drops: the first one. */
  lemma {:induction false} WithoutDropsFirst<T>(s: seq<T>, x: T) returns (k: nat)
    requires x in s
    ensures k < |s| && s[k] == x && (forall j :: 0 <= j < k ==> s[j] != x)
    ensures Without(s, x) == s[..k] + s[k + 1..]
  {
    if s[0] == x {
      k := 0;
    } else {
      var t := s[1..];
      assert x in t by { assert s == [s[0]] + t; }
      var k' := WithoutDropsFirst(t, x);
      k := k' + 1;
      JoinAround(s[0], t, k');
    }
  }

  /** Cutting element k' + 1 out of [a] + t leaves a followed by t with its element k' cut out. */
  lemma JoinAround<T>(a: T, t: seq<T>, k': nat)
    requires k' < |t|
    ensures ([a] + t)[..k' + 1] + ([a] + t)[k' + 2..] == [a] + (t[..k'] + t[k' + 1..])
  {
    assert ([a] + t)[..k' + 1] == [a] + t[..k'];
    assert ([a] + t)[k' + 2..] == t[k' + 1..];
  }

  /** Removing an absent element changes nothing. */
  lemma {:induction false} WithoutAbsent<T>(s: seq<T>, x: T)
    requires x !in s
    ensures Without(s, x) == s
  {
    if s != [] {
      assert x !in s[1..] by { assert s == [s[0]] + s[1..]; }
      WithoutAbsent(s[1..], x);
      assert s == [s[0]] + s[1..];
    }
  }

  /** Removal takes one copy of x out of the multiset of elements, or none when x is absent. */
  lemma {:induction false} WithoutMultiset<T>(s: seq<T>, x: T)
    ensures multiset(Without(s, x)) == multiset(s) - multiset{x}
  {
    if s != [] {
      assert s == [s[0]] + s[1..];
      if s[0] != x {
        WithoutMultiset(s[1..], x);
        assert Without(s, x) == [s[0]] + Without(s[1..], x);
      }
    }
  }

  /** An element is kept exactly when it is in s and not in gone. */
  lemma {:induction false} ExcludingMembers<T>(s: seq<T>, gone: seq<T>)
    ensures forall i :: 0 <= i < |Excluding(s, gone)| ==> Excluding(s, gone)[i] in s && Excluding(s, gone)[i] !in gone
    ensures forall i :: 0 <= i < |s| && s[i] !in gone ==> s[i] in Excluding(s, gone)
  {
    if s != [] {
      var init := s[..|s| - 1];
      ExcludingMembers(init, gone);
      var r := Excluding(s, gone);
      var t := if s[|s| - 1] in gone then [] else [s[|s| - 1]];
      assert r == Excluding(init, gone) + t;
      forall i | 0 <= i < |r|
        ensures r[i] in s && r[i] !in gone
      {
        if i < |Excluding(init, gone)| {
          assert r[i] == Excluding(init, gone)[i];
          assert r[i] in init;
        }
      }
      forall i | 0 <= i < |s| && s[i] !in gone
        ensures s[i] in r
      {
        if i < |s| - 1 {
          assert s[i] == init[i];
        }
      }
    }
  }

  lemma {:induction false} WithoutConcat<T>(a: seq<T>, c: seq<T>, x: T)
    ensures Without(a + c, x) == if x in a then Without(a, x) + c else a + Without(c, x)
  {
    if a != [] {
      assert (a + c)[0] == a[0] && (a + c)[1..] == a[1..] + c;
      if a[0] == x {
        assert Without(a + c, x) == a[1..] + c;
      } else {
        assert Without(a + c, x) == [a[0]] + Without(a[1..] + c, x);
        WithoutConcat(a[1..], c, x);
        assert a == [a[0]] + a[1..];
        assert x in a <==> x in a[1..];
        if x in a {
          assert [a[0]] + (Without(a[1..], x) + c) == ([a[0]] + Without(a[1..], x)) + c;
        } else {
          assert [a[0]] + (a[1..] + Without(c, x)) == a + Without(c, x);
        }
      }
    } else {
      assert a + c == c;
    }
  }

  lemma {:induction false} ExcludingNothing<T>(s: seq<T>)
    ensures Excluding(s, []) == s
  {
    if s != [] {
      ExcludingNothing(s[..|s| - 1]);
      assert s[..|s| - 1] + [s[|s| - 1]] == s;
    }
  }

  lemma {:induction false} ExcludingIgnoresAbsent<T>(s: seq<T>, gone: seq<T>, x: T)
    requires x !in s
    ensures Excluding(s, gone + [x]) == Excluding(s, gone)
  {
    if s != [] {
      assert s[..|s| - 1] + [s[|s| - 1]] == s;
      ExcludingIgnoresAbsent(s[..|s| - 1], gone, x);
    }
  }

  /**
   * Removing, one at a time, the elements of a distinct list that are to go leaves exactly the
   * elements that are not to go, in their original order.
   */
  lemma {:induction false} WithoutExcluding<T>(s: seq<T>, gone: seq<T>, x: T)
    requires Distinct(s) && x !in gone
    ensures Without(Excluding(s, gone), x) == Excluding(s, gone + [x])
  {
    if s != [] {
      var init, last := s[..|s| - 1], s[|s| - 1];
      assert init + [last] == s;
      assert Distinct(init);
      var t := if last in gone then [] else [last];
      ExcludingMembers(init, gone);
      assert Excluding(s, gone) == Excluding(init, gone) + t;
      WithoutConcat(Excluding(init, gone), t, x);
      if x in init {
        var j :| 0 <= j < |init| && init[j] == x;
        assert x in Excluding(init, gone);
        WithoutExcluding(init, gone, x);
        assert last != x && (last in gone + [x] <==> last in gone);
        assert Excluding(s, gone + [x]) == Excluding(init, gone + [x]) + t;
      } else {
        assert x !in Excluding(init, gone);
        WithoutAbsent(Excluding(init, gone), x);
        ExcludingIgnoresAbsent(init, gone, x);
      }
    }
  }

  lemma {:induction false} ExcludingDistinct<T>(s: seq<T>, gone: seq<T>)
    requires Distinct(s)
    ensures Distinct(Excluding(s, gone))
  {
    if s != [] {
      var init := s[..|s| - 1];
      assert Distinct(init);
      ExcludingDistinct(init, gone);
      ExcludingMembers(init, gone);
      assert s[|s| - 1] !in init;
    }
  }

  /** The elements of s that occur in gone are exactly those whose flag is set. */
  ghost predicate Marks<T>(s: seq<T>, gone: seq<T>, flags: seq<bool>) {
    |flags| == |s| && forall k :: 0 <= k < |s| ==> (s[k] in gone <==> flags[k])
  }

  /** The elements of s whose flag is set, in their order in s. */
  function Picked<T>(s: seq<T>, flags: seq<bool>): seq<T>
    requires |flags| == |s|
  {
    if s == [] then []
    else Picked(s[..|s| - 1], flags[..|s| - 1]) + (if flags[|s| - 1] then [s[|s| - 1]] else [])
  }

  /** Deciding one more element extends the picked prefix by that element exactly when it is flagged. */
  lemma PickedStep<T>(s: seq<T>, flags: seq<bool>, i: nat)
    requires i < |s| == |flags|
    ensures Picked(s[..i + 1], flags[..i + 1]) == Picked(s[..i], flags[..i]) + (if flags[i] then [s[i]] else [])
  {
    assert s[..i + 1][..i] == s[..i] && flags[..i + 1][..i] == flags[..i];
  }

  /** Picking from a distinct list gives a distinct list that marks exactly the flagged elements. */
  lemma {:induction false} PickedMarks<T>(s: seq<T>, flags: seq<bool>)
    requires Distinct(s) && |flags| == |s|
    ensures Distinct(Picked(s, flags)) && Marks(s, Picked(s, flags), flags)
    ensures forall t :: t in Picked(s, flags) ==> t in s
  {
    if s != [] {
      var n := |s| - 1;
      assert Distinct(s[..n]);
      PickedMarks(s[..n], flags[..n]);
      var r := Picked(s[..n], flags[..n]);
      assert s[n] !in r;
      forall k | 0 <= k < |s|
        ensures s[k] in Picked(s, flags) <==> flags[k]
      {
        if k < n {
          assert s[..n][k] == s[k] && flags[..n][k] == flags[k];
        }
      }
    }
  }
}
