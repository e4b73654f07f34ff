// Lists as the source uses them: optional values, filters against a set,
// and the facts about them that several modules need.
module Sequences {

  datatype Option<+T> = None | Some(value: T)

  function ToSet<T>(s: seq<T>): set<T> {
    set x | x in s
  }

  // No value occurs twice.
  ghost predicate Distinct<T>(s: seq<T>) {
    forall i, j :: 0 <= i < j < |s| ==> s[i] != s[j]
  }

  // s.filter((x) => !gone.has(x))
  function Without<T(==)>(s: seq<T>, gone: set<T>): seq<T> {
    if s == [] then []
    else (if s[0] in gone then [] else [s[0]]) + Without(s[1..], gone)
  }

  // s.indexOf(x)
  function IndexOf<T(==)>(s: seq<T>, x: T): (i: int)
    ensures -1 <= i < |s|
    ensures i == -1 <==> x !in s
    ensures i >= 0 ==> s[i] == x && x !in s[..i]
  {
    if s == [] then -1
    else if s[0] == x then 0
    else
      var rest := IndexOf(s[1..], x);
      assert s == [s[0]] + s[1..];
      if rest == -1 then -1
      else
        assert s[..rest + 1] == [s[0]] + s[1..][..rest];
        rest + 1
  }

  lemma {:induction false} WithoutMembers<T>(s: seq<T>, gone: set<T>)
    ensures forall x :: x in Without(s, gone) <==> x in s && x !in gone
  {
    if s != [] {
      WithoutMembers(s[1..], gone);
      assert s == [s[0]] + s[1..];
    }
  }

  lemma {:induction false} WithoutDistinct<T>(s: seq<T>, gone: set<T>)
    requires Distinct(s)
    ensures Distinct(Without(s, gone))
  {
    if s != [] {
      WithoutDistinct(s[1..], gone);
      WithoutMembers(s[1..], gone);
      assert s[0] !in s[1..];
    }
  }

  lemma {:induction false} WithoutNothing<T>(s: seq<T>, gone: set<T>)
    requires forall x :: x in s ==> x !in gone
    ensures Without(s, gone) == s
  {
    if s != [] {
      WithoutNothing(s[1..], gone);
      assert s == [s[0]] + s[1..];
    }
  }

  lemma Associates<T>(a: seq<T>, b: seq<T>, c: seq<T>)
    ensures (a + b) + c == a + (b + c)
  {
  }

  lemma ToSetGrows<T>(s: seq<T>, x: T)
    ensures ToSet(s + [x]) == ToSet(s) + {x}
  {
  }

  lemma {:induction false} WithoutAll<T>(s: seq<T>, gone: set<T>)
    requires forall x :: x in s ==> x in gone
    ensures Without(s, gone) == []
  {
    if s != [] {
      WithoutAll(s[1..], gone);
    }
  }

  lemma {:induction false} WithoutAppend<T>(a: seq<T>, b: seq<T>, gone: set<T>)
    ensures Without(a + b, gone) == Without(a, gone) + Without(b, gone)
  {
    if a == [] {
      assert a + b == b;
    } else {
      WithoutAppend(a[1..], b, gone);
      assert (a + b)[1..] == a[1..] + b;
      Associates(if a[0] in gone then [] else [a[0]], Without(a[1..], gone), Without(b, gone));
    }
  }

  lemma {:induction false} WithoutTwice<T>(s: seq<T>, gone: set<T>, more: set<T>)
    ensures Without(Without(s, gone), more) == Without(s, gone + more)
  {
    if s != [] {
      WithoutTwice(s[1..], gone, more);
      WithoutAppend(if s[0] in gone then [] else [s[0]], Without(s[1..], gone), more);
    }
  }

  // Distinct parts with nothing in common make a distinct whole.
  lemma DistinctAppend<T>(a: seq<T>, b: seq<T>)
    ensures Distinct(a + b) <==> Distinct(a) && Distinct(b) && (forall x :: x in a ==> x !in b)
  {
    var s := a + b;
    if Distinct(s) {
      forall i, j | 0 <= i < j < |a| ensures a[i] != a[j] {
        assert s[i] == a[i] && s[j] == a[j];
      }
      forall i, j | 0 <= i < j < |b| ensures b[i] != b[j] {
        assert s[|a| + i] == b[i] && s[|a| + j] == b[j];
      }
      forall i, j | 0 <= i < |a| && 0 <= j < |b| ensures a[i] != b[j] {
        assert s[i] == a[i] && s[|a| + j] == b[j];
      }
    }
    if Distinct(a) && Distinct(b) && (forall x :: x in a ==> x !in b) {
      forall i, j | 0 <= i < j < |s| ensures s[i] != s[j] {
        if i < |a| <= j {
          assert a[i] in a && b[j - |a|] in b;
        }
      }
    }
  }

  lemma SplitAround<T>(s: seq<T>, index: nat)
    requires index < |s|
    ensures s == s[..index] + [s[index]] + s[index + 1..]
  {
  }

  lemma {:induction false} DistinctIsOnceEach<T>(s: seq<T>)
    ensures Distinct(s) <==> forall x :: multiset(s)[x] <= 1
  {
    if s != [] {
      DistinctIsOnceEach(s[1..]);
      assert s == [s[0]] + s[1..];
      DistinctAppend([s[0]], s[1..]);
      assert multiset(s) == multiset{s[0]} + multiset(s[1..]);
      assert s[0] in [s[0]];
      if Distinct(s) {
        assert multiset(s[1..])[s[0]] == 0;
      } else if !Distinct(s[1..]) {
        var x :| multiset(s[1..])[x] > 1;
        assert multiset(s)[x] > 1;
      } else {
        assert multiset(s)[s[0]] > 1;
      }
    }
  }

  // The same values, each as often.
  lemma SameValues<T>(a: seq<T>, b: seq<T>)
    requires multiset(a) == multiset(b)
    ensures Distinct(a) <==> Distinct(b)
    ensures ToSet(a) == ToSet(b)
    ensures |a| == |b|
  {
    DistinctIsOnceEach(a);
    DistinctIsOnceEach(b);
    assert forall x :: x in a <==> x in multiset(a);
    assert forall x :: x in b <==> x in multiset(b);
    assert |multiset(a)| == |a| && |multiset(b)| == |b|;
  }

  lemma {:induction false} DistinctAsSet<T>(s: seq<T>)
    requires Distinct(s)
    ensures multiset(s) == multiset(ToSet(s))
  {
    if s != [] {
      var rest := s[1..];
      assert s == [s[0]] + rest;
      DistinctAppend([s[0]], rest);
      assert s[0] in [s[0]];
      DistinctAsSet(rest);
      assert ToSet(s) == {s[0]} + ToSet(rest);
      assert multiset({s[0]} + ToSet(rest)) == multiset{s[0]} + multiset(ToSet(rest));
    }
  }

  // Taking a part out and counting it separately loses nothing.
  lemma WithoutAPart<T>(s: seq<T>, part: seq<T>)
    requires Distinct(s) && Distinct(part) && forall x :: x in part ==> x in s
    ensures multiset(Without(s, ToSet(part))) + multiset(part) == multiset(s)
  {
    var rest := Without(s, ToSet(part));
    WithoutMembers(s, ToSet(part));
    WithoutDistinct(s, ToSet(part));
    DistinctAppend(rest, part);
    assert ToSet(rest + part) == ToSet(s);
    DistinctAsSet(rest + part);
    DistinctAsSet(s);
    assert multiset(rest + part) == multiset(rest) + multiset(part);
  }

  lemma DistinctParts<T>(a: seq<T>, b: seq<T>, c: seq<T>)
    requires Distinct(a + b + c)
    ensures Distinct(b) && forall x :: x in b ==> x !in a && x !in c
  {
    DistinctAppend(a + b, c);
    DistinctAppend(a, b);
    assert forall x :: x in b ==> x in a + b;
  }

  lemma WithoutBetween<T>(a: seq<T>, b: seq<T>, c: seq<T>, gone: set<T>)
    requires (forall x :: x in a ==> x !in gone) && (forall x :: x in b ==> x in gone)
             && (forall x :: x in c ==> x !in gone)
    ensures Without(a + b + c, gone) == a + c
  {
    WithoutAppend(a + b, c, gone);
    WithoutAppend(a, b, gone);
    WithoutNothing(a, gone);
    WithoutAll(b, gone);
    WithoutNothing(c, gone);
    assert a + [] == a;
  }

  lemma WithoutMiddle<T>(a: seq<T>, b: seq<T>, c: seq<T>)
    requires Distinct(a + b + c)
    ensures Without(a + b + c, ToSet(b)) == a + c
  {
    DistinctParts(a, b, c);
    WithoutBetween(a, b, c, ToSet(b));
  }
}
