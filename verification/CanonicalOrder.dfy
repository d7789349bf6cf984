/** Why the copy of an object is sorted, and holds the members it should. */
module CanonicalOrder {
  import opened JsonText
  import opened CanonicalJson

  ghost predicate SortedBy(keys: seq<Text>, order: seq<nat>)
    requires Within(order, |keys|)
  {
    forall a, b :: 0 <= a < b < |order| ==> Before(keys[order[a]], keys[order[b]])
  }

  ghost predicate UniqueKeys(keys: seq<Text>) {
    forall i, j :: 0 <= i < j < |keys| ==> keys[i] != keys[j]
  }

  lemma {:induction false} InsertIndexSorts(keys: seq<Text>, order: seq<nat>, i: nat)
    requires i < |keys| && Within(order, |keys|) && SortedBy(keys, order)
    requires forall k :: 0 <= k < |order| ==> keys[order[k]] != keys[i]
    ensures SortedBy(keys, InsertIndex(keys, order, i))
    ensures forall k :: k in InsertIndex(keys, order, i) <==> k == i || k in order
  {
    var n := |order| - 1;
    if n >= 0 {
      BeforeTotal(keys[i], keys[order[n]]);
      if Before(keys[i], keys[order[n]]) {
        InsertIndexSorts(keys, order[..n], i);
        var inner := InsertIndex(keys, order[..n], i);
        assert order == order[..n] + [order[n]];
        forall k | 0 <= k < |inner|
          ensures Before(keys[inner[k]], keys[order[n]])
        {
          assert inner[k] in inner;
        }
      } else {
        forall k | 0 <= k < n
          ensures Before(keys[order[k]], keys[i])
        {
          BeforeTransitive(keys[order[k]], keys[order[n]], keys[i]);
        }
      }
    }
  }

  lemma {:induction false} SortedOrderSorts(keys: seq<Text>)
    requires UniqueKeys(keys)
    ensures SortedBy(keys, SortedOrder(keys))
    ensures forall k :: k in SortedOrder(keys) <==> 0 <= k < |keys|
  {
    if keys != [] {
      var n := |keys| - 1;
      SortedOrderSorts(keys[..n]);
      InsertIndexSorts(keys, SortedOrder(keys[..n]), n);
    }
  }

  lemma KeyBeforeTransitive(a: Text, b: Text, c: Text)
    requires KeyBefore(a, b) && KeyBefore(b, c)
    ensures KeyBefore(a, c)
  {
    if Before(a, b) && Before(b, c) {
      BeforeTransitive(a, b, c);
    }
  }

  lemma {:induction false} PutIndexSorts(members: seq<JMember>, m: JMember)
    requires KeysSorted(members) && IsIndex(m.key)
    requires forall i :: 0 <= i < |members| ==> members[i].key != m.key
    ensures KeysSorted(PutIndex(members, m))
    ensures forall x :: x in PutIndex(members, m) <==> x == m || x in members
  {
    if members != [] {
      KeyBeforeTotal(members[0].key, m.key);
      if IsIndex(members[0].key) && IndexBefore(members[0].key, m.key) {
        PutIndexSorts(members[1..], m);
        var inner := PutIndex(members[1..], m);
        forall i | 0 <= i < |inner|
          ensures KeyBefore(members[0].key, inner[i].key)
        {
          assert inner[i] in inner;
        }
        assert members == [members[0]] + members[1..];
      } else {
        forall i | 0 <= i < |members|
          ensures KeyBefore(m.key, members[i].key)
        {
          if i > 0 {
            KeyBeforeTransitive(m.key, members[0].key, members[i].key);
          }
        }
      }
    }
  }

  lemma PutSorts(members: seq<JMember>, m: JMember)
    requires KeysSorted(members)
    requires forall i :: 0 <= i < |members| ==> members[i].key != m.key && Before(members[i].key, m.key)
    ensures KeysSorted(Put(members, m))
    ensures forall x :: x in Put(members, m) <==> x == m || x in members
  {
    if IsIndex(m.key) {
      PutIndexSorts(members, m);
    }
  }

  ghost predicate Assigned(members: seq<JMember>, order: seq<nat>, x: JMember)
    requires Within(order, |members|)
  {
    x.key != PROTO && exists k :: 0 <= k < |order| && members[order[k]] == x
  }

  lemma AssignedNext(members: seq<JMember>, order: seq<nat>, x: JMember)
    requires Within(order, |members|) && order != []
    ensures var n := |order| - 1;
            Assigned(members, order, x) <==>
                Assigned(members, order[..n], x) || (x == members[order[n]] && x.key != PROTO)
  {
    var n := |order| - 1;
    if Assigned(members, order[..n], x) {
      var k :| 0 <= k < n && members[order[..n][k]] == x;
      assert members[order[k]] == x;
    }
    if Assigned(members, order, x) {
      var k :| 0 <= k < |order| && members[order[k]] == x;
      assert k < n ==> members[order[..n][k]] == x;
    }
  }

  /** Assigning members in key order gives a sorted object with all of them but `__proto__`. */
  lemma {:induction false} AssembleSorts(members: seq<JMember>, order: seq<nat>)
    requires Within(order, |members|)
    requires forall a, b :: 0 <= a < b < |order| ==> Before(members[order[a]].key, members[order[b]].key)
    ensures KeysSorted(Assemble(members, order))
    ensures forall x :: x in Assemble(members, order) <==> Assigned(members, order, x)
  {
    if order != [] {
      var n := |order| - 1;
      AssembleSorts(members, order[..n]);
      var before, m := Assemble(members, order[..n]), members[order[n]];
      forall i | 0 <= i < |before|
        ensures before[i].key != m.key && Before(before[i].key, m.key)
      {
        assert before[i] in before;
        var k :| 0 <= k < n && members[order[..n][k]] == before[i];
        assert Before(members[order[k]].key, members[order[n]].key);
        BeforeTotal(before[i].key, m.key);
      }
      PutSorts(before, m);
      forall x {
        AssignedNext(members, order, x);
      }
    }
  }

  function Copies(members: seq<Member>): seq<JMember> {
    seq(|members|, i requires 0 <= i < |members| => JMember(members[i].key, Canonicalize(members[i].value)))
  }

  /** `x` is the copy of a member, other than of one named `__proto__`. */
  ghost predicate CopiedIn(members: seq<Member>, x: JMember) {
    exists i :: 0 <= i < |members| && x == JMember(members[i].key, Canonicalize(members[i].value)) && x.key != PROTO
  }

  /** The copy of an object: sorted, and a member is in it exactly when it copies one of the object's. */
  lemma CopiedObject(members: seq<Member>)
    requires UniqueKeys(KeysOf(members))
    ensures Canonicalize(Obj(members)).JObj?
    ensures KeysSorted(Canonicalize(Obj(members)).members)
    ensures forall x :: x in Canonicalize(Obj(members)).members <==> CopiedIn(members, x)
  {
    var keys := KeysOf(members);
    var order := SortedOrder(keys);
    SortedOrderSorts(keys);
    var copies := Copies(members);
    AssembleSorts(copies, order);
    var copy := Canonicalize(Obj(members)).members;
    assert copy == Assemble(copies, order);
    forall x
      ensures x in copy <==> CopiedIn(members, x)
    {
      if x in copy {
        assert Assigned(copies, order, x);
        var k :| 0 <= k < |order| && copies[order[k]] == x;
        assert x == JMember(members[order[k]].key, Canonicalize(members[order[k]].value));
      }
      if CopiedIn(members, x) {
        var i :| 0 <= i < |members| && x == JMember(members[i].key, Canonicalize(members[i].value)) && x.key != PROTO;
        assert i in order;
        var k :| 0 <= k < |order| && order[k] == i;
        assert copies[order[k]] == x;
        assert Assigned(copies, order, x);
      }
    }
  }

  // ---------------------------------------------------------------- a sorted list is determined by its members

  lemma SortedKeysUnique(members: seq<JMember>, i: nat, j: nat)
    requires KeysSorted(members) && i < |members| && j < |members| && members[i].key == members[j].key
    ensures i == j
  {
    KeyBeforeTotal(members[i].key, members[j].key);
  }

  function KeySet(members: seq<JMember>): set<Text> {
    set i | 0 <= i < |members| :: members[i].key
  }

  lemma KeySetTail(members: seq<JMember>)
    requires KeysSorted(members) && members != []
    ensures KeySet(members[1..]) == KeySet(members) - {members[0].key}
  {
    var rest := members[1..];
    assert members == [members[0]] + rest;
    forall i | 0 <= i < |rest|
      ensures rest[i].key != members[0].key && rest[i].key in KeySet(members)
    {
      assert rest[i] == members[i + 1];
      KeyBeforeTotal(members[0].key, members[i + 1].key);
    }
    forall k | k in KeySet(members) && k != members[0].key
      ensures k in KeySet(rest)
    {
      var i :| 0 <= i < |members| && members[i].key == k;
      assert rest[i - 1].key == k;
    }
  }

  /** Two sorted lists with the same keys have them in the same places. */
  lemma {:induction false} SortedSameKeys(a: seq<JMember>, b: seq<JMember>)
    requires KeysSorted(a) && KeysSorted(b) && KeySet(a) == KeySet(b)
    ensures |a| == |b| && forall i :: 0 <= i < |a| ==> a[i].key == b[i].key
  {
    assert a != [] ==> a[0].key in KeySet(a);
    assert b != [] ==> b[0].key in KeySet(b);
    if a != [] && b != [] {
      var j :| 0 <= j < |b| && b[j].key == a[0].key;
      var i :| 0 <= i < |a| && a[i].key == b[0].key;
      KeyBeforeTotal(a[0].key, b[0].key);
      KeySetTail(a);
      KeySetTail(b);
      SortedSameKeys(a[1..], b[1..]);
      assert forall i :: 1 <= i < |a| ==> a[i] == a[1..][i - 1] && b[i] == b[1..][i - 1];
    }
  }
}
