/** What the operations of `ChildrenTree` do to a tree, as functions on values. */
module TreeOps {
  import opened Trees

  /** Attach `x` under the first node labelled `a`; refused when there is no such
      node or its four slots are taken. */
  function AddAnyChild<T(==)>(t: Tree<T>, a: T, x: T): (r: (Tree<T>, bool))
    ensures r.0.root == t.root
  {
    if a in Pre(t) && |KidsOf(t, a)| < MAX_CHILDREN then (Insert(t, a, x), true) else (t, false)
  }

  /** Add to the node labelled `a` those of `list` it does not have yet, one after
      the other; stops at the first that does not fit. */
  function UpdateNode<T(==)>(t: Tree<T>, a: T, list: seq<T>): (Tree<T>, bool)
    decreases |list|
  {
    if a !in Pre(t) then (t, false)
    else if list == [] then (t, true)
    else if list[0] in KidsOf(t, a) then UpdateNode(t, a, list[1..])
    else
      var (t1, ok) := AddAnyChild(t, a, list[0]);
      if ok then InsertLabels(t, a, list[0]); UpdateNode(t1, a, list[1..]) else (t1, false)
  }

  lemma UpdateNodeStep<T>(t: Tree<T>, a: T, x: T, rest: seq<T>)
    requires a in Pre(t)
    ensures UpdateNode(t, a, [x] + rest) ==
            if x in KidsOf(t, a) then UpdateNode(t, a, rest)
            else var (t1, ok) := AddAnyChild(t, a, x); if ok then UpdateNode(t1, a, rest) else (t, false)
  {
    assert ([x] + rest)[1..] == rest;
  }

  /** `before` followed by the members of `list` that are new, in order, once each. */
  function Merged<T(==)>(before: seq<T>, list: seq<T>): (r: seq<T>)
    ensures before <= r
    ensures NoDup(before) ==> NoDup(r)
    decreases |list|
  {
    if list == [] then before
    else if list[0] in before then Merged(before, list[1..])
    else Merged(before + [list[0]], list[1..])
  }

  lemma {:induction false} MergedMembers<T>(before: seq<T>, list: seq<T>, x: T)
    ensures x in Merged(before, list) <==> x in before || x in list
    decreases |list|
  {
    if list != [] {
      assert x in list <==> x == list[0] || x in list[1..];
      MergedMembers(if list[0] in before then before else before + [list[0]], list[1..], x);
    }
  }

  lemma {:induction false} MergedAgain<T>(before: seq<T>, list: seq<T>)
    requires forall x :: x in list ==> x in before
    ensures Merged(before, list) == before
  {
    if list != [] {
      MergedAgain(before, list[1..]);
    }
  }

  /** Where an id first stands in a list. */
  function FirstIn<T(==)>(list: seq<T>, x: T): (k: nat)
    requires x in list
    ensures k < |list| && list[k] == x && forall j :: 0 <= j < k ==> list[j] != x
    decreases |list|
  {
    if list[0] == x then 0 else 1 + FirstIn(list[1..], x)
  }

  /** The new ones are in the order of the list. */
  lemma {:induction false} MergedInOrder<T>(before: seq<T>, list: seq<T>, i: nat, j: nat)
    requires |before| <= i < j < |Merged(before, list)|
    ensures var r := Merged(before, list);
            && r[i] in list && r[j] in list && r[i] !in before && r[j] !in before
            && FirstIn(list, r[i]) < FirstIn(list, r[j])
    decreases |list|
  {
    var x, more := list[0], list[1..];
    if x in before {
      MergedInOrder(before, more, i, j);
    } else if i > |before| {
      MergedInOrder(before + [x], more, i, j);
    } else {
      MergedNew(before + [x], more, j);
      assert Merged(before + [x], more)[..|before| + 1] == before + [x];
      assert Merged(before, list)[i] == x;
    }
  }

  lemma {:induction false} MergedNew<T>(before: seq<T>, list: seq<T>, j: nat)
    requires |before| <= j < |Merged(before, list)|
    ensures Merged(before, list)[j] in list && Merged(before, list)[j] !in before
    decreases |list|
  {
    var x, more := list[0], list[1..];
    if x in before {
      MergedNew(before, more, j);
    } else if j > |before| {
      MergedNew(before + [x], more, j);
    } else {
      assert Merged(before + [x], more)[..|before| + 1] == before + [x];
    }
  }

  /** An id of the list that stands elsewhere in the tree: merged in, it is there twice. */
  predicate Doubled<T(==)>(t: Tree<T>, a: T, list: seq<T>, b: T) {
    b in list && b in Pre(t) && b !in KidsOf(t, a)
  }

  /** The update succeeds exactly when the node is there and the merged list fits its
      slots; it then holds the merged list, every other id that is not doubled keeps its
      own, and asking again changes nothing. */
  lemma {:induction false} UpdateNodeMerges<T>(t: Tree<T>, a: T, list: seq<T>)
    requires |KidsOf(t, a)| <= MAX_CHILDREN
    ensures UpdateNode(t, a, list).1 <==> a in Pre(t) && |Merged(KidsOf(t, a), list)| <= MAX_CHILDREN
    ensures UpdateNode(t, a, list).1 ==>
              var t1 := UpdateNode(t, a, list).0;
              && KidsOf(t1, a) == Merged(KidsOf(t, a), list)
              && (forall b :: b != a && !Doubled(t, a, list, b) ==> KidsOf(t1, b) == KidsOf(t, b))
              && UpdateNode(t1, a, list) == (t1, true)
    decreases |list|
  {
    UpdateNodeKids(t, a, list);
    if UpdateNode(t, a, list).1 {
      var t1 := UpdateNode(t, a, list).0;
      forall x | x in list ensures x in KidsOf(t1, a) {
        MergedMembers(KidsOf(t, a), list, x);
      }
      UpdateNodeAgain(t1, a, list);
    }
  }

  lemma {:induction false} UpdateNodeKids<T>(t: Tree<T>, a: T, list: seq<T>)
    requires |KidsOf(t, a)| <= MAX_CHILDREN
    ensures UpdateNode(t, a, list).1 <==> a in Pre(t) && |Merged(KidsOf(t, a), list)| <= MAX_CHILDREN
    ensures UpdateNode(t, a, list).1 ==>
              var t1 := UpdateNode(t, a, list).0;
              && a in Pre(t1)
              && KidsOf(t1, a) == Merged(KidsOf(t, a), list)
              && (forall b :: b != a && !Doubled(t, a, list, b) ==> KidsOf(t1, b) == KidsOf(t, b))
    decreases |list|
  {
    if a in Pre(t) && list != [] {
      if list[0] in KidsOf(t, a) {
        UpdateNodeKids(t, a, list[1..]);
      } else if |KidsOf(t, a)| < MAX_CHILDREN {
        var t1 := Insert(t, a, list[0]);
        InsertLabels(t, a, list[0]);
        InsertKids(t, a, list[0], a);
        UpdateNodeKids(t1, a, list[1..]);
        forall b | b != a && !Doubled(t, a, list, b)
          ensures KidsOf(t1, b) == KidsOf(t, b) && !Doubled(t1, a, list[1..], b)
        {
          InsertKids(t, a, list[0], b);
          assert b in list <==> b == list[0] || b in list[1..];
        }
      }
    }
  }

  lemma {:induction false} UpdateNodeAgain<T>(t: Tree<T>, a: T, list: seq<T>)
    requires a in Pre(t) && forall x :: x in list ==> x in KidsOf(t, a)
    ensures UpdateNode(t, a, list) == (t, true)
  {
    if list != [] {
      UpdateNodeAgain(t, a, list[1..]);
    }
  }

  /** An update of a node that is not there changes nothing; one whose merged list does not
      fit leaves the first four of it. */
  lemma {:induction false} UpdateNodeFills<T>(t: Tree<T>, a: T, list: seq<T>)
    requires |KidsOf(t, a)| <= 4
    ensures a !in Pre(t) ==> UpdateNode(t, a, list) == (t, false)
    ensures a in Pre(t) && !UpdateNode(t, a, list).1 ==>
              |Merged(KidsOf(t, a), list)| > 4 && KidsOf(UpdateNode(t, a, list).0, a) == Merged(KidsOf(t, a), list)[..4]
    decreases |list|
  {
    if a in Pre(t) && list != [] {
      var ks := KidsOf(t, a);
      if list[0] in ks {
        UpdateNodeFills(t, a, list[1..]);
      } else if |ks| < 4 {
        InsertLabels(t, a, list[0]);
        InsertKids(t, a, list[0], a);
        UpdateNodeFills(Insert(t, a, list[0]), a, list[1..]);
      } else {
        assert ks + [list[0]] <= Merged(ks, list);
      }
    }
  }
}
