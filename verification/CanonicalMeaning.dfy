/** The canonical text of a value decides its meaning, and is decided by it. */
module CanonicalMeaning {
  import opened JsonText
  import opened CanonicalJson
  import opened CanonicalOrder

  // ---------------------------------------------------------------- objects as maps

  lemma {:induction false} MembersMeaningAt(members: seq<Member>, proto: bool)
    requires UniqueKeys(KeysOf(members))
    ensures forall k :: k in MembersMeaning(members, proto) ==> exists i :: 0 <= i < |members| && members[i].key == k
    ensures forall i :: 0 <= i < |members| ==>
              (members[i].key in MembersMeaning(members, proto) <==> proto || members[i].key != PROTO)
    ensures forall i :: 0 <= i < |members| && (proto || members[i].key != PROTO) ==>
              MembersMeaning(members, proto)[members[i].key] == MeaningOf(members[i].value, proto)
  {
    if members != [] {
      var rest := members[1..];
      assert forall i :: 0 <= i < |rest| ==> KeysOf(rest)[i] == KeysOf(members)[i + 1];
      MembersMeaningAt(rest, proto);
      forall i | 0 <= i < |rest|
        ensures rest[i] == members[i + 1] && rest[i].key != members[0].key
      {
        assert KeysOf(members)[0] != KeysOf(members)[i + 1];
      }
      forall k | k in MembersMeaning(members, proto)
        ensures exists i :: 0 <= i < |members| && members[i].key == k
      {
        if k in MembersMeaning(rest, proto) {
          var i :| 0 <= i < |rest| && rest[i].key == k;
          assert members[i + 1].key == k;
        }
      }
    }
  }

  lemma {:induction false} JMembersMeaningAt(members: seq<JMember>)
    requires KeysSorted(members)
    ensures forall k :: k in JMembersMeaning(members) ==> exists i :: 0 <= i < |members| && members[i].key == k
    ensures forall i :: 0 <= i < |members| ==>
              members[i].key in JMembersMeaning(members)
                  && JMembersMeaning(members)[members[i].key] == JMeaning(members[i].value)
  {
    if members != [] {
      var rest := members[1..];
      JMembersMeaningAt(rest);
      forall i | 0 < i < |members|
        ensures members[i] == rest[i - 1] && members[i].key != members[0].key
      {
        KeyBeforeTotal(members[0].key, members[i].key);
      }
      forall k | k in JMembersMeaning(members)
        ensures exists i :: 0 <= i < |members| && members[i].key == k
      {
        if k in JMembersMeaning(rest) {
          var i :| 0 <= i < |rest| && rest[i].key == k;
          assert members[i + 1].key == k;
        }
      }
    }
  }

  lemma UniqueKeysOf(members: seq<Member>)
    requires WellFormed(Obj(members))
    ensures UniqueKeys(KeysOf(members))
  {
  }

  // ---------------------------------------------------------------- the copy keeps the meaning

  lemma {:induction false} CopyIsCanonical(v: Value)
    requires WellFormed(v)
    ensures Canonical(Canonicalize(v))
    decreases v
  {
    match v
    case Arr(items) =>
      forall i | 0 <= i < |items|
        ensures Canonical(Canonicalize(items[i]))
      {
        CopyIsCanonical(items[i]);
      }
    case Obj(members) =>
      UniqueKeysOf(members);
      CopiedObject(members);
      var copy := Canonicalize(v).members;
      forall k | 0 <= k < |copy|
        ensures copy[k].key != PROTO && Canonical(copy[k].value)
      {
        assert copy[k] in copy;
        var i :| 0 <= i < |members| && copy[k] == JMember(members[i].key, Canonicalize(members[i].value));
        CopyIsCanonical(members[i].value);
      }
    case _ =>
  }

  lemma {:induction false} CopyMeaning(v: Value)
    requires WellFormed(v)
    ensures JMeaning(Canonicalize(v)) == MeaningOf(v, false)
    decreases v
  {
    match v
    case Arr(items) =>
      forall i | 0 <= i < |items|
        ensures JMeaning(Canonicalize(items[i])) == MeaningOf(items[i], false)
      {
        CopyMeaning(items[i]);
      }
    case Obj(members) =>
      forall i | 0 <= i < |members|
        ensures JMeaning(Canonicalize(members[i].value)) == MeaningOf(members[i].value, false)
      {
        CopyMeaning(members[i].value);
      }
      CopiedMembersMeaning(members);
    case _ =>
  }

  lemma CopiedMembersMeaning(members: seq<Member>)
    requires WellFormed(Obj(members))
    requires forall i :: 0 <= i < |members| ==>
        JMeaning(Canonicalize(members[i].value)) == MeaningOf(members[i].value, false)
    ensures JMembersMeaning(Canonicalize(Obj(members)).members) == MembersMeaning(members, false)
  {
    UniqueKeysOf(members);
    CopiedObject(members);
    SortedCopyMeaning(members, Canonicalize(Obj(members)).members);
  }

  lemma SortedCopyMeaning(members: seq<Member>, copy: seq<JMember>)
    requires UniqueKeys(KeysOf(members)) && KeysSorted(copy)
    requires forall i :: 0 <= i < |members| ==>
        JMeaning(Canonicalize(members[i].value)) == MeaningOf(members[i].value, false)
    requires forall x :: x in copy <==> CopiedIn(members, x)
    ensures JMembersMeaning(copy) == MembersMeaning(members, false)
  {
    var a, b := JMembersMeaning(copy), MembersMeaning(members, false);
    forall k
      ensures (k in a <==> k in b) && (k in a ==> a[k] == b[k])
    {
      CopiedMember(members, copy, k);
      CopyHasMember(members, copy, k);
    }
  }

  /** A key of the copy is a key of the object, with the same meaning. */
  lemma CopiedMember(members: seq<Member>, copy: seq<JMember>, k: Text)
    requires UniqueKeys(KeysOf(members)) && KeysSorted(copy)
    requires forall i :: 0 <= i < |members| ==>
        JMeaning(Canonicalize(members[i].value)) == MeaningOf(members[i].value, false)
    requires forall x :: x in copy ==> CopiedIn(members, x)
    ensures k in JMembersMeaning(copy) ==>
              k in MembersMeaning(members, false) && JMembersMeaning(copy)[k] == MembersMeaning(members, false)[k]
  {
    if k in JMembersMeaning(copy) {
      JMembersMeaningAt(copy);
      var j :| 0 <= j < |copy| && copy[j].key == k;
      assert copy[j] in copy;
      var i :| 0 <= i < |members| && copy[j] == JMember(members[i].key, Canonicalize(members[i].value))
          && copy[j].key != PROTO;
      MembersMeaningAt(members, false);
    }
  }

  lemma CopyHasMember(members: seq<Member>, copy: seq<JMember>, k: Text)
    requires UniqueKeys(KeysOf(members)) && KeysSorted(copy)
    requires forall x :: CopiedIn(members, x) ==> x in copy
    ensures k in MembersMeaning(members, false) ==> k in JMembersMeaning(copy)
  {
    if k in MembersMeaning(members, false) {
      MembersMeaningAt(members, false);
      var i :| 0 <= i < |members| && members[i].key == k;
      var x := JMember(members[i].key, Canonicalize(members[i].value));
      assert CopiedIn(members, x);
      var j :| 0 <= j < |copy| && copy[j] == x;
      JMembersMeaningAt(copy);
    }
  }

  // ---------------------------------------------------------------- equal meaning, equal text

  lemma {:induction false} SameItemsText(a: seq<Json>, b: seq<Json>)
    requires |a| == |b| && forall i :: 0 <= i < |a| ==> Print(a[i]) == Print(b[i])
    ensures PrintItems(a) == PrintItems(b)
  {
    if a != [] {
      SameItemsText(a[1..], b[1..]);
    }
  }

  lemma {:induction false} SameMembersText(a: seq<JMember>, b: seq<JMember>)
    requires |a| == |b|
    requires forall i :: 0 <= i < |a| ==> a[i].key == b[i].key && Print(a[i].value) == Print(b[i].value)
    ensures PrintMembers(a) == PrintMembers(b)
  {
    if a != [] {
      SameMembersText(a[1..], b[1..]);
    }
  }

  lemma KeySetIsMapKeys(a: seq<JMember>)
    requires KeysSorted(a)
    ensures KeySet(a) == JMembersMeaning(a).Keys
  {
    JMembersMeaningAt(a);
  }

  lemma SameMapSameKeys(a: seq<JMember>, b: seq<JMember>)
    requires KeysSorted(a) && KeysSorted(b) && JMembersMeaning(a) == JMembersMeaning(b)
    ensures |a| == |b|
    ensures forall i :: 0 <= i < |a| ==> a[i].key == b[i].key && JMeaning(a[i].value) == JMeaning(b[i].value)
  {
    KeySetIsMapKeys(a);
    KeySetIsMapKeys(b);
    SortedSameKeys(a, b);
    forall i | 0 <= i < |a|
      ensures JMeaning(a[i].value) == JMeaning(b[i].value)
    {
      MeaningAt(a, i);
      MeaningAt(b, i);
    }
  }

  lemma MeaningAt(a: seq<JMember>, i: nat)
    requires KeysSorted(a) && i < |a|
    ensures a[i].key in JMembersMeaning(a) && JMembersMeaning(a)[a[i].key] == JMeaning(a[i].value)
  {
    JMembersMeaningAt(a);
  }

  lemma {:induction false} SameMeaningSameText(c: Json, d: Json)
    requires Canonical(c) && Canonical(d) && JMeaning(c) == JMeaning(d)
    ensures Print(c) == Print(d)
    decreases c
  {
    if c.JArr? && d.JArr? {
      assert |c.items| == |JMeaning(c).items| == |d.items|;
      forall i | 0 <= i < |c.items|
        ensures Print(c.items[i]) == Print(d.items[i])
      {
        assert JMeaning(c).items[i] == JMeaning(d).items[i];
        SameMeaningSameText(c.items[i], d.items[i]);
      }
      if c.items != [] {
        SameItemsText(c.items[1..], d.items[1..]);
      }
    } else if c.JObj? && d.JObj? {
      SameMapSameKeys(c.members, d.members);
      forall i | 0 <= i < |c.members|
        ensures Print(c.members[i].value) == Print(d.members[i].value)
      {
        SameMeaningSameText(c.members[i].value, d.members[i].value);
      }
      if c.members != [] {
        SameMembersText(c.members[1..], d.members[1..]);
      }
    }
  }

  // ---------------------------------------------------------------- equal text, equal meaning

  /** What can follow a printed value: nothing, a comma, or a closing bracket. */
  predicate Ends(r: Text) {
    r != [] ==> r[0] == COMMA || r[0] == RBRACKET || r[0] == RBRACE
  }

  /** The first code unit of a printed value tells what kind of value it is. */
  lemma PrintHead(c: Json)
    requires Canonical(c)
    ensures Print(c) != []
    ensures Print(c)[0] == 110 <==> c.JNull? || (c.JNum? && c.n.NotFinite?)
    ensures Print(c)[0] == 116 <==> c == JBool(true)
    ensures Print(c)[0] == 102 <==> c == JBool(false)
    ensures Print(c)[0] == QUOTE <==> c.JStr?
    ensures Print(c)[0] == LBRACKET <==> c.JArr?
    ensures Print(c)[0] == LBRACE <==> c.JObj?
    ensures Print(c)[0] != RBRACKET
  {
    if c.JNum? && c.n.Numeral? {
      assert IsNumberUnit(c.n.text[0]);
    }
  }

  lemma Cancel(prefix: Text, r: Text, s: Text)
    requires prefix + r == prefix + s
    ensures r == s
  {
    assert r == (prefix + r)[|prefix|..] && s == (prefix + s)[|prefix|..];
  }

  lemma LongerContinues(t: Text, u: Text, r: Text, s: Text)
    requires t + r == u + s && |t| < |u|
    ensures r != [] && r[0] == u[|t|]
  {
    assert (t + r)[|t|] == (u + s)[|t|];
  }

  /** A numeral stops where the number units stop. */
  lemma NumeralInjective(t: Text, u: Text, r: Text, s: Text)
    requires IsNumeral(t) && IsNumeral(u) && Ends(r) && Ends(s) && t + r == u + s
    ensures t == u && r == s
  {
    if |t| < |u| {
      LongerContinues(t, u, r, s);
    } else if |u| < |t| {
      LongerContinues(u, t, s, r);
    } else {
      assert t == (t + r)[..|t|] && u == (u + s)[..|u|];
      Cancel(t, r, s);
    }
  }

  function NumberText(n: Number): Text
    requires NumberOk(n) && !n.NotFinite?
    ensures IsNumeral(NumberText(n)) && NumberMeaning(n) == MNum(NumberText(n))
  {
    if n.Numeral? then n.text else ZERO_TEXT
  }

  /** A value's meaning can be read back off the front of its text, whatever follows. */
  lemma {:induction false} PrintInjective(c: Json, d: Json, r: Text, s: Text)
    requires Canonical(c) && Canonical(d) && Ends(r) && Ends(s) && Print(c) + r == Print(d) + s
    ensures JMeaning(c) == JMeaning(d) && r == s
    decreases c, 0
  {
    PrintHead(c);
    PrintHead(d);
    assert (Print(c) + r)[0] == Print(c)[0] && (Print(d) + s)[0] == Print(d)[0];
    if c.JArr? {
      ArrayInjective(c.items, d.items, r, s);
    } else if c.JObj? {
      ObjectInjective(c.members, d.members, r, s);
    } else if c.JStr? {
      QuotedInjective(c.s, d.s, r, s);
    } else if c.JNum? && !c.n.NotFinite? {
      assert d.JNum? && !d.n.NotFinite?;
      NumeralInjective(NumberText(c.n), NumberText(d.n), r, s);
    } else {
      Cancel(Print(c), r, s);
    }
  }

  lemma RegroupTail(p: Text, x: Text, y: Text, r: Text)
    ensures (p + x + y) + r == p + (x + (y + r))
    ensures (p + (x + y)) + r == p + (x + (y + r))
  {
  }

  lemma ArrayStart(items: seq<Json>, r: Text)
    ensures items == [] ==> Print(JArr(items)) + r == [LBRACKET] + ([RBRACKET] + r)
    ensures items != [] ==> Print(JArr(items)) + r == [LBRACKET] + (Print(items[0]) + (PrintItems(items[1..]) + r))
  {
    if items != [] {
      RegroupTail([LBRACKET], Print(items[0]), PrintItems(items[1..]), r);
    }
  }

  lemma Starts(prefix: Text, r: Text)
    requires prefix != []
    ensures prefix + r != [] && (prefix + r)[0] == prefix[0]
  {
  }

  /** What follows the opening bracket: the closing one, or a first item. */
  lemma ArrayRest(items: seq<Json>, r: Text) returns (rest: Text)
    requires Canonical(JArr(items))
    ensures Print(JArr(items)) + r == [LBRACKET] + rest && rest != []
    ensures rest[0] == RBRACKET <==> items == []
    ensures items == [] ==> rest == [RBRACKET] + r
    ensures items != [] ==> rest == Print(items[0]) + (PrintItems(items[1..]) + r)
  {
    ArrayStart(items, r);
    if items == [] {
      rest := [RBRACKET] + r;
    } else {
      PrintHead(items[0]);
      rest := Print(items[0]) + (PrintItems(items[1..]) + r);
      Starts(Print(items[0]), PrintItems(items[1..]) + r);
    }
  }

  lemma {:induction false} ArrayInjective(a: seq<Json>, b: seq<Json>, r: Text, s: Text)
    requires Canonical(JArr(a)) && Canonical(JArr(b)) && Ends(r) && Ends(s)
    requires Print(JArr(a)) + r == Print(JArr(b)) + s
    ensures JMeaning(JArr(a)) == JMeaning(JArr(b)) && r == s
    decreases a, 1
  {
    var x := ArrayRest(a, r);
    var y := ArrayRest(b, s);
    Cancel([LBRACKET], x, y);
    if a == [] {
      Cancel([RBRACKET], r, s);
    } else {
      ItemsStart(a[1..], r);
      ItemsStart(b[1..], s);
      PrintInjective(a[0], b[0], PrintItems(a[1..]) + r, PrintItems(b[1..]) + s);
      ItemsInjective(a[1..], b[1..], r, s);
      SameItemsMeaning(a, b);
    }
  }

  lemma SameItemsMeaning(a: seq<Json>, b: seq<Json>)
    requires a != [] && |a| == |b| && JMeaning(a[0]) == JMeaning(b[0])
    requires forall i :: 0 <= i < |a| - 1 ==> JMeaning(a[1..][i]) == JMeaning(b[1..][i])
    ensures forall i :: 0 <= i < |a| ==> JMeaning(a[i]) == JMeaning(b[i])
    ensures JMeaning(JArr(a)) == JMeaning(JArr(b))
  {
    forall i | 0 <= i < |a|
      ensures JMeaning(a[i]) == JMeaning(b[i])
    {
      assert i > 0 ==> a[i] == a[1..][i - 1] && b[i] == b[1..][i - 1];
    }
  }

  lemma ItemsStart(items: seq<Json>, r: Text)
    ensures Ends(PrintItems(items) + r) && PrintItems(items) + r != []
    ensures (PrintItems(items) + r)[0] == COMMA <==> items != []
    ensures items == [] ==> PrintItems(items) + r == [RBRACKET] + r
    ensures items != [] ==> PrintItems(items) + r == [COMMA] + (Print(items[0]) + (PrintItems(items[1..]) + r))
  {
    if items != [] {
      RegroupTail([COMMA], Print(items[0]), PrintItems(items[1..]), r);
    }
  }

  lemma {:induction false} ItemsInjective(a: seq<Json>, b: seq<Json>, r: Text, s: Text)
    requires forall i :: 0 <= i < |a| ==> Canonical(a[i])
    requires forall i :: 0 <= i < |b| ==> Canonical(b[i])
    requires Ends(r) && Ends(s) && PrintItems(a) + r == PrintItems(b) + s
    ensures |a| == |b| && (forall i :: 0 <= i < |a| ==> JMeaning(a[i]) == JMeaning(b[i])) && r == s
    decreases a, 1
  {
    ItemsStart(a, r);
    ItemsStart(b, s);
    if a == [] {
      Cancel([RBRACKET], r, s);
    } else {
      var x, y := PrintItems(a[1..]) + r, PrintItems(b[1..]) + s;
      Cancel([COMMA], Print(a[0]) + x, Print(b[0]) + y);
      ItemsStart(a[1..], r);
      ItemsStart(b[1..], s);
      PrintInjective(a[0], b[0], x, y);
      ItemsInjective(a[1..], b[1..], r, s);
      SameItemsMeaning(a, b);
    }
  }

  lemma {:induction false} MemberInjective(m: JMember, n: JMember, r: Text, s: Text)
    requires Canonical(m.value) && Canonical(n.value) && Ends(r) && Ends(s) && PrintMember(m) + r == PrintMember(n) + s
    ensures m.key == n.key && JMeaning(m.value) == JMeaning(n.value) && r == s
    decreases m, 1
  {
    var x, y := [COLON] + (Print(m.value) + r), [COLON] + (Print(n.value) + s);
    RegroupTail(Quoted(m.key), [COLON], Print(m.value), r);
    RegroupTail(Quoted(n.key), [COLON], Print(n.value), s);
    QuotedInjective(m.key, n.key, x, y);
    Cancel([COLON], Print(m.value) + r, Print(n.value) + s);
    PrintInjective(m.value, n.value, r, s);
  }

  lemma MembersStart(members: seq<JMember>, r: Text)
    ensures Ends(PrintMembers(members) + r) && PrintMembers(members) + r != []
    ensures (PrintMembers(members) + r)[0] == COMMA <==> members != []
    ensures members == [] ==> PrintMembers(members) + r == [RBRACE] + r
    ensures members != [] ==>
        PrintMembers(members) + r == [COMMA] + (PrintMember(members[0]) + (PrintMembers(members[1..]) + r))
  {
    if members != [] {
      RegroupTail([COMMA], PrintMember(members[0]), PrintMembers(members[1..]), r);
    }
  }

  lemma {:induction false} MembersInjective(a: seq<JMember>, b: seq<JMember>, r: Text, s: Text)
    requires forall i :: 0 <= i < |a| ==> Canonical(a[i].value)
    requires forall i :: 0 <= i < |b| ==> Canonical(b[i].value)
    requires Ends(r) && Ends(s) && PrintMembers(a) + r == PrintMembers(b) + s
    ensures JMembersMeaning(a) == JMembersMeaning(b) && r == s
    decreases a, 2
  {
    MembersStart(a, r);
    MembersStart(b, s);
    if a == [] {
      Cancel([RBRACE], r, s);
    } else {
      var x, y := PrintMembers(a[1..]) + r, PrintMembers(b[1..]) + s;
      Cancel([COMMA], PrintMember(a[0]) + x, PrintMember(b[0]) + y);
      MembersStart(a[1..], r);
      MembersStart(b[1..], s);
      MemberInjective(a[0], b[0], x, y);
      MembersInjective(a[1..], b[1..], r, s);
    }
  }

  lemma MemberHead(m: JMember)
    ensures PrintMember(m) != [] && PrintMember(m)[0] == QUOTE
  {
  }

  /** What follows the opening brace: the closing one, or a first member. */
  lemma ObjectRest(members: seq<JMember>, r: Text) returns (rest: Text)
    ensures Print(JObj(members)) + r == [LBRACE] + rest && rest != []
    ensures rest[0] == RBRACE <==> members == []
    ensures members == [] ==> rest == [RBRACE] + r
    ensures members != [] ==> rest == PrintMember(members[0]) + (PrintMembers(members[1..]) + r)
  {
    if members == [] {
      rest := [RBRACE] + r;
    } else {
      MemberHead(members[0]);
      rest := PrintMember(members[0]) + (PrintMembers(members[1..]) + r);
      Starts(PrintMember(members[0]), PrintMembers(members[1..]) + r);
      RegroupTail([LBRACE], PrintMember(members[0]), PrintMembers(members[1..]), r);
    }
  }

  lemma {:induction false} ObjectInjective(a: seq<JMember>, b: seq<JMember>, r: Text, s: Text)
    requires Canonical(JObj(a)) && Canonical(JObj(b)) && Ends(r) && Ends(s)
    requires Print(JObj(a)) + r == Print(JObj(b)) + s
    ensures JMembersMeaning(a) == JMembersMeaning(b) && r == s
    decreases a, 3
  {
    var x := ObjectRest(a, r);
    var y := ObjectRest(b, s);
    Cancel([LBRACE], x, y);
    if a == [] {
      Cancel([RBRACE], r, s);
    } else {
      MembersStart(a[1..], r);
      MembersStart(b[1..], s);
      MemberInjective(a[0], b[0], PrintMembers(a[1..]) + r, PrintMembers(b[1..]) + s);
      MembersInjective(a[1..], b[1..], r, s);
    }
  }

  /**
   * The canonical texts of two values are equal exactly when the values are the same after turning
   * `undefined` into null and forgetting key order at every depth, own `__proto__` properties aside.
   */
  lemma TextDecidesMeaning(x: Value, y: Value)
    requires WellFormed(x) && WellFormed(y)
    ensures CanonicalText(x) == CanonicalText(y) <==> MeaningOf(x, false) == MeaningOf(y, false)
  {
    CopyIsCanonical(x);
    CopyIsCanonical(y);
    CopyMeaning(x);
    CopyMeaning(y);
    if CanonicalText(x) == CanonicalText(y) {
      PrintInjective(Canonicalize(x), Canonicalize(y), [], []);
    }
    if MeaningOf(x, false) == MeaningOf(y, false) {
      SameMeaningSameText(Canonicalize(x), Canonicalize(y));
    }
  }

  // ---------------------------------------------------------------- own properties named __proto__

  predicate ProtoFree(v: Value)
    decreases v
  {
    match v
    case Arr(items) => forall i :: 0 <= i < |items| ==> ProtoFree(items[i])
    case Obj(members) => forall i :: 0 <= i < |members| ==> members[i].key != PROTO && ProtoFree(members[i].value)
    case _ => true
  }

  /**
   * The copy of a value means the same as the value exactly when no object in it has an own property
   * named `__proto__`.
   */
  lemma {:induction false} CopyIsFaithful(v: Value)
    requires WellFormed(v)
    ensures JMeaning(Canonicalize(v)) == MeaningOf(v, true) <==> ProtoFree(v)
    decreases v
  {
    CopyMeaning(v);
    match v
    case Arr(items) =>
      forall i | 0 <= i < |items|
        ensures MeaningOf(items[i], false) == MeaningOf(items[i], true) <==> ProtoFree(items[i])
      {
        CopyIsFaithful(items[i]);
        CopyMeaning(items[i]);
      }
      ItemsFaithful(items);
    case Obj(members) =>
      forall i | 0 <= i < |members|
        ensures MeaningOf(members[i].value, false) == MeaningOf(members[i].value, true) <==> ProtoFree(members[i].value)
      {
        CopyIsFaithful(members[i].value);
        CopyMeaning(members[i].value);
      }
      UniqueKeysOf(members);
      MembersFaithful(members);
    case _ =>
  }

  lemma ItemsFaithful(items: seq<Value>)
    requires forall i :: 0 <= i < |items| ==>
        (MeaningOf(items[i], false) == MeaningOf(items[i], true) <==> ProtoFree(items[i]))
    ensures MeaningOf(Arr(items), false) == MeaningOf(Arr(items), true) <==> ProtoFree(Arr(items))
  {
    var a, b := MeaningOf(Arr(items), false).items, MeaningOf(Arr(items), true).items;
    if a == b {
      forall i | 0 <= i < |items|
        ensures ProtoFree(items[i])
      {
        assert a[i] == b[i];
      }
    }
  }

  lemma MembersFaithful(members: seq<Member>)
    requires UniqueKeys(KeysOf(members))
    ensures MembersMeaning(members, false) == MembersMeaning(members, true) <==>
            forall i :: 0 <= i < |members| ==>
              members[i].key != PROTO && MeaningOf(members[i].value, false) == MeaningOf(members[i].value, true)
  {
    if MembersMeaning(members, false) == MembersMeaning(members, true) {
      forall i | 0 <= i < |members|
        ensures members[i].key != PROTO && MeaningOf(members[i].value, false) == MeaningOf(members[i].value, true)
      {
        SameMapSameMember(members, i);
      }
    } else if forall i :: 0 <= i < |members| ==>
      members[i].key != PROTO && MeaningOf(members[i].value, false) == MeaningOf(members[i].value, true)
    {
      ProtoFreeMembers(members);
    }
  }

  lemma SameMapSameMember(members: seq<Member>, i: nat)
    requires UniqueKeys(KeysOf(members)) && i < |members|
    requires MembersMeaning(members, false) == MembersMeaning(members, true)
    ensures members[i].key != PROTO && MeaningOf(members[i].value, false) == MeaningOf(members[i].value, true)
  {
    MemberOf(members, false, i);
    MemberOf(members, true, i);
  }

  lemma MemberOf(members: seq<Member>, proto: bool, i: nat)
    requires UniqueKeys(KeysOf(members)) && i < |members|
    ensures members[i].key in MembersMeaning(members, proto) <==> proto || members[i].key != PROTO
    ensures proto || members[i].key != PROTO ==>
              MembersMeaning(members, proto)[members[i].key] == MeaningOf(members[i].value, proto)
  {
    MembersMeaningAt(members, proto);
  }

  lemma {:induction false} ProtoFreeMembers(members: seq<Member>)
    requires forall i :: 0 <= i < |members| ==>
               members[i].key != PROTO && MeaningOf(members[i].value, false) == MeaningOf(members[i].value, true)
    ensures MembersMeaning(members, false) == MembersMeaning(members, true)
  {
    if members != [] {
      ProtoFreeMembers(members[1..]);
    }
  }

  /** The value without them. */
  function Strip(v: Value): Value
    decreases v, 0
  {
    match v
    case Arr(items) => Arr(seq(|items|, i requires 0 <= i < |items| => Strip(items[i])))
    case Obj(members) => Obj(StripMembers(members))
    case _ => v
  }

  function StripMembers(members: seq<Member>): seq<Member>
    decreases members, 1
  {
    if members == [] then []
    else
      (if members[0].key == PROTO then [] else [Member(members[0].key, Strip(members[0].value))])
      + StripMembers(members[1..])
  }

  /** What the text keeps of a value is the whole meaning of the value without them. */
  lemma {:induction false} StripMeaning(v: Value)
    ensures MeaningOf(Strip(v), true) == MeaningOf(v, false)
    decreases v, 0
  {
    match v
    case Arr(items) =>
      forall i | 0 <= i < |items|
        ensures MeaningOf(Strip(items[i]), true) == MeaningOf(items[i], false)
      {
        StripMeaning(items[i]);
      }
    case Obj(members) => StripMembersMeaning(members);
    case _ =>
  }

  lemma {:induction false} StripMembersMeaning(members: seq<Member>)
    ensures MembersMeaning(StripMembers(members), true) == MembersMeaning(members, false)
    decreases members, 1
  {
    if members != [] {
      var rest := StripMembers(members[1..]);
      StripMembersMeaning(members[1..]);
      if members[0].key == PROTO {
        assert StripMembers(members) == rest;
      } else {
        StripMeaning(members[0].value);
        var first := Member(members[0].key, Strip(members[0].value));
        assert StripMembers(members) == [first] + rest && ([first] + rest)[1..] == rest;
      }
    }
  }

  lemma {:induction false} StripIsIdentity(v: Value)
    requires ProtoFree(v)
    ensures Strip(v) == v
    decreases v, 0
  {
    match v
    case Arr(items) =>
      forall i | 0 <= i < |items|
        ensures Strip(items[i]) == items[i]
      {
        StripIsIdentity(items[i]);
      }
      assert Strip(v).items == items;
    case Obj(members) => StripsNoMember(members);
    case _ =>
  }

  lemma {:induction false} StripsNoMember(members: seq<Member>)
    requires forall i :: 0 <= i < |members| ==> members[i].key != PROTO && ProtoFree(members[i].value)
    ensures StripMembers(members) == members
    decreases members, 1
  {
    if members != [] {
      StripIsIdentity(members[0].value);
      StripsNoMember(members[1..]);
      assert members == [members[0]] + members[1..];
    }
  }

  /** For values without such a property, the canonical text decides the whole meaning. */
  lemma TextDecidesWholeMeaning(x: Value, y: Value)
    requires WellFormed(x) && WellFormed(y) && ProtoFree(x) && ProtoFree(y)
    ensures CanonicalText(x) == CanonicalText(y) <==> MeaningOf(x, true) == MeaningOf(y, true)
  {
    TextDecidesMeaning(x, y);
    CopyIsFaithful(x);
    CopyIsFaithful(y);
    CopyMeaning(x);
    CopyMeaning(y);
  }

  /** With one, it does not: the object whose only own property is `__proto__` prints like the empty object. */
  lemma ProtoIsPassedOver()
    ensures var x, y := Obj([Member(PROTO, Bool(true))]), Obj([]);
            WellFormed(x) && WellFormed(y) && CanonicalText(x) == CanonicalText(y)
                && MeaningOf(x, true) != MeaningOf(y, true)
  {
    var x, y := Obj([Member(PROTO, Bool(true))]), Obj([]);
    TextDecidesMeaning(x, y);
    assert MembersMeaning(x.members[1..], false) == map[];
    assert PROTO in MembersMeaning(x.members, true);
  }

  // ---------------------------------------------------------------- canonicalizing twice

  function AsValue(c: Json): Value
    decreases c
  {
    match c
    case JNull => Null
    case JBool(b) => Bool(b)
    case JNum(n) => Num(n)
    case JStr(s) => Str(s)
    case JArr(items) => Arr(seq(|items|, i requires 0 <= i < |items| => AsValue(items[i])))
    case JObj(members) => Obj(seq(|members|,
        i requires 0 <= i < |members| => Member(members[i].key, AsValue(members[i].value))))
  }

  /** A canonical value is its own copy. */
  lemma {:induction false} CanonicalIsFixed(c: Json)
    requires Canonical(c)
    ensures Canonicalize(AsValue(c)) == c
    decreases c
  {
    match c
    case JArr(items) =>
      forall i | 0 <= i < |items|
        ensures Canonicalize(AsValue(items[i])) == items[i]
      {
        CanonicalIsFixed(items[i]);
      }
      assert Canonicalize(AsValue(c)).items == items;
    case JObj(members) =>
      forall i | 0 <= i < |members|
        ensures Canonicalize(AsValue(members[i].value)) == members[i].value
      {
        CanonicalIsFixed(members[i].value);
      }
      ObjectIsFixed(members);
    case _ =>
  }

  lemma ObjectIsFixed(members: seq<JMember>)
    requires Canonical(JObj(members))
    requires forall i :: 0 <= i < |members| ==> Canonicalize(AsValue(members[i].value)) == members[i].value
    ensures Canonicalize(AsValue(JObj(members))) == JObj(members)
  {
    var values := AsValue(JObj(members)).members;
    forall i, j | 0 <= i < j < |values|
      ensures KeysOf(values)[i] != KeysOf(values)[j]
    {
      KeyBeforeTotal(members[i].key, members[j].key);
    }
    CopiedObject(values);
    var copy := Canonicalize(Obj(values)).members;
    forall x
      ensures x in copy <==> x in members
    {
      if x in copy {
        var i :| 0 <= i < |values| && x == JMember(values[i].key, Canonicalize(values[i].value));
        assert x == members[i];
      }
      if x in members {
        var i :| 0 <= i < |members| && members[i] == x;
        assert x == JMember(values[i].key, Canonicalize(values[i].value));
        assert CopiedIn(values, x);
      }
    }
    SortedSameMembers(copy, members);
  }

  lemma SortedSameMembers(a: seq<JMember>, b: seq<JMember>)
    requires KeysSorted(a) && KeysSorted(b) && forall x :: x in a <==> x in b
    ensures a == b
  {
    forall k
      ensures k in KeySet(a) <==> k in KeySet(b)
    {
      if k in KeySet(a) {
        var i :| 0 <= i < |a| && a[i].key == k;
        assert a[i] in b;
      }
      if k in KeySet(b) {
        var i :| 0 <= i < |b| && b[i].key == k;
        assert b[i] in a;
      }
    }
    SortedSameKeys(a, b);
    forall i | 0 <= i < |a|
      ensures a[i] == b[i]
    {
      assert a[i] in b;
      var j :| 0 <= j < |b| && b[j] == a[i];
      SortedKeysUnique(b, i, j);
    }
  }

  /** Canonicalizing is idempotent. */
  lemma CanonicalizeTwice(v: Value)
    requires WellFormed(v)
    ensures Canonicalize(AsValue(Canonicalize(v))) == Canonicalize(v)
  {
    CopyIsCanonical(v);
    CanonicalIsFixed(Canonicalize(v));
  }
}
