/** The members and the multiset of a sequence, taken apart. */
module SeqMultisets {

  function Members<T(==)>(s: seq<T>): set<T> {
    set x | x in s
  }

  lemma MembersSnoc<T>(s: seq<T>, x: T)
    ensures Members(s + [x]) == Members(s) + {x}
  {
    assert forall y | y in Members(s) + {x} :: y in s + [x];
  }

  lemma TailMultiset<T>(s: seq<T>)
    requires s != []
    ensures multiset(s) == multiset{s[0]} + multiset(s[1..])
    ensures multiset(s[1..]) == multiset(s) - multiset{s[0]}
  {
    assert s == [s[0]] + s[1..];
  }

  lemma SameLength<T>(s: seq<T>, t: seq<T>)
    requires multiset(s) == multiset(t)
    ensures |s| == |t|
  {
    assert |multiset(s)| == |s| && |multiset(t)| == |t|;
  }

  lemma SizeAsMultiset<T>(s: set<T>)
    ensures |multiset(s)| == |s|
  {
  }

  lemma EmptyAsMultiset<T>(s: set<T>)
    requires multiset(s) == multiset{}
    ensures s == {}
  {
    SizeAsMultiset(s);
  }

  lemma ShiftMultisets<T>(a: multiset<T>, b: multiset<T>, x: multiset<T>, y: multiset<T>, rest: multiset<T>)
    requires a + x == b + y
    ensures (a + rest) + x == (b + rest) + y
  {
    assert (a + rest) + x == (a + x) + rest;
    assert (b + rest) + y == (b + y) + rest;
  }

  lemma SwapMultisets<T>(a: multiset<T>, x: multiset<T>, y: multiset<T>)
    ensures (a + x) + y == (a + y) + x
  {
  }

  lemma CancelMultisets<T>(a: multiset<T>, b: multiset<T>, x: multiset<T>)
    requires a + x == b + x
    ensures a == b
  {
    forall e ensures a[e] == b[e] {
      assert (a + x)[e] == (b + x)[e];
    }
  }

  lemma SubtractMultisets<T>(a: multiset<T>, b: multiset<T>, x: multiset<T>)
    requires a + x == b + multiset{}
    ensures a == b - x
  {
    forall e ensures a[e] == (b - x)[e] {
      assert (a + x)[e] == (b + multiset{})[e];
    }
  }

  function Sum<T>(ms: seq<multiset<T>>): multiset<T> {
    if ms == [] then multiset{} else Sum(ms[..|ms|-1]) + ms[|ms|-1]
  }

  lemma SumSnoc<T>(ms: seq<multiset<T>>, x: multiset<T>)
    ensures Sum(ms + [x]) == Sum(ms) + x
  {
    assert (ms + [x])[..|ms|] == ms;
  }

  lemma {:induction false} SumReplace<T>(ms: seq<multiset<T>>, i: nat, x: multiset<T>)
    requires i < |ms|
    ensures Sum(ms[i := x]) + ms[i] == Sum(ms) + x
  {
    var init, last := ms[..|ms|-1], ms[|ms|-1];
    if i < |init| {
      SumReplace(init, i, x);
      assert ms[i := x] == init[i := x] + [last];
      SumSnoc(init[i := x], last);
      ShiftMultisets(Sum(init[i := x]), Sum(init), ms[i], x, last);
    } else {
      assert ms[i := x] == init + [x];
      SumSnoc(init, x);
      SwapMultisets(Sum(init), x, last);
    }
  }

  lemma {:induction false} SumContains<T>(ms: seq<multiset<T>>, i: nat)
    requires i < |ms|
    ensures ms[i] <= Sum(ms)
  {
    if i == |ms| - 1 {
    } else {
      SumContains(ms[..|ms|-1], i);
    }
  }

  lemma {:induction false} SumConcat<T>(ms: seq<multiset<T>>, ns: seq<multiset<T>>)
    ensures Sum(ms + ns) == Sum(ms) + Sum(ns)
    decreases |ns|
  {
    if ns == [] {
      assert ms + ns == ms;
    } else {
      var init, last := ns[..|ns|-1], ns[|ns|-1];
      SumConcat(ms, init);
      assert ms + ns == (ms + init) + [last];
      SumSnoc(ms + init, last);
    }
  }

  lemma SumCons<T>(x: multiset<T>, ms: seq<multiset<T>>)
    ensures Sum([x] + ms) == x + Sum(ms)
  {
    SumConcat([x], ms);
    assert [x][..0] == [] && Sum([x]) == x;
  }
}
