/**
 * Canonical JSON: values are copied with their object keys sorted and `undefined` made null, and the
 * copy is printed. The text decides the meaning of a value: two values print alike exactly when they
 * are the same once key order is forgotten.
 */
module CanonicalJson {
  import opened JsonText

  // ---------------------------------------------------------------- values and their copies

  /** A number as it prints: a numeral, or one of the values without a numeral of their own. */
  datatype Number = Numeral(text: Text) | NegativeZero | NotFinite

  datatype Value =
    | Undefined
    | Null
    | Bool(b: bool)
    | Num(n: Number)
    | Str(s: Text)
    | Arr(items: seq<Value>)
    | Obj(members: seq<Member>)

  datatype Member = Member(key: Text, value: Value)

  /** A copied value: there is no `undefined` left in it. */
  datatype Json =
    | JNull
    | JBool(b: bool)
    | JNum(n: Number)
    | JStr(s: Text)
    | JArr(items: seq<Json>)
    | JObj(members: seq<JMember>)

  datatype JMember = JMember(key: Text, value: Json)

  /** The key `__proto__`. Assigning it on a fresh object sets no own property. */
  const PROTO: Text := [95, 95, 112, 114, 111, 116, 111, 95, 95]

  // ---------------------------------------------------------------- property order

  predicate IsDigitUnit(c: CodeUnit) {
    48 <= c <= 57
  }

  /** The numeral of the largest array index, 4294967294. */
  const MAX_INDEX: Text := [52, 50, 57, 52, 57, 54, 55, 50, 57, 52]

  /** Keys that are array indices: objects enumerate them first, in numeric order. */
  predicate IsIndex(k: Text) {
    && 0 < |k| <= 10
    && (forall i :: 0 <= i < |k| ==> IsDigitUnit(k[i]))
    && (k[0] == 48 ==> |k| == 1)
    && (|k| == 10 ==> !Before(MAX_INDEX, k))
  }

  /** Numeric order on index keys, which have no leading zeros. */
  predicate IndexBefore(a: Text, b: Text) {
    |a| < |b| || (|a| == |b| && Before(a, b))
  }

  /** The order in which a canonical object enumerates its keys. */
  predicate KeyBefore(a: Text, b: Text) {
    if IsIndex(a) then IsIndex(b) ==> IndexBefore(a, b)
    else !IsIndex(b) && Before(a, b)
  }

  lemma KeyBeforeTotal(a: Text, b: Text)
    ensures KeyBefore(a, b) || KeyBefore(b, a) || a == b
    ensures !(KeyBefore(a, b) && KeyBefore(b, a))
  {
    BeforeTotal(a, b);
  }

  /** Assigning a new property: an index key goes among the index keys, any other key goes last. */
  function Put(members: seq<JMember>, m: JMember): seq<JMember> {
    if IsIndex(m.key) then PutIndex(members, m) else members + [m]
  }

  function PutIndex(members: seq<JMember>, m: JMember): seq<JMember> {
    if members != [] && IsIndex(members[0].key) && IndexBefore(members[0].key, m.key)
    then [members[0]] + PutIndex(members[1..], m)
    else [m] + members
  }

  // ---------------------------------------------------------------- canonicalize

  /** Positions below a bound. */
  predicate Within(order: seq<nat>, n: nat) {
    forall k :: 0 <= k < |order| ==> order[k] < n
  }

  /** File index `i` into a list of member indices sorted by key. */
  function InsertIndex(keys: seq<Text>, order: seq<nat>, i: nat): (filed: seq<nat>)
    requires i < |keys| && Within(order, |keys|)
    ensures |filed| == |order| + 1 && Within(filed, |keys|)
  {
    if order == [] || !Before(keys[i], keys[order[|order| - 1]]) then order + [i]
    else InsertIndex(keys, order[..|order| - 1], i) + [order[|order| - 1]]
  }

  /** The positions of the keys, sorted by key. */
  function SortedOrder(keys: seq<Text>): (order: seq<nat>)
    ensures |order| == |keys| && Within(order, |keys|)
  {
    if keys == [] then []
    else
      var n := |keys| - 1;
      InsertIndex(keys, SortedOrder(keys[..n]), n)
  }

  function KeysOf(members: seq<Member>): seq<Text> {
    seq(|members|, i requires 0 <= i < |members| => members[i].key)
  }

  /** Assign the members to a fresh object in the given order. */
  function Assemble(members: seq<JMember>, order: seq<nat>): seq<JMember>
    requires Within(order, |members|)
  {
    if order == [] then []
    else
      var n := |order| - 1;
      var before, m := Assemble(members, order[..n]), members[order[n]];
      if m.key == PROTO then before else Put(before, m)
  }

  function Canonicalize(v: Value): Json
    decreases v
  {
    match v
    case Undefined => JNull
    case Null => JNull
    case Bool(b) => JBool(b)
    case Num(n) => JNum(n)
    case Str(s) => JStr(s)
    case Arr(items) => JArr(seq(|items|, i requires 0 <= i < |items| => Canonicalize(items[i])))
    case Obj(members) =>
      var copies := seq(|members|,
          i requires 0 <= i < |members| => JMember(members[i].key, Canonicalize(members[i].value)));
      JObj(Assemble(copies, SortedOrder(KeysOf(members))))
  }

  /** The recursive copy as it runs: a loop over the items, or over the sorted keys of an object. */
  method CanonicalizeValue(v: Value) returns (c: Json)
    ensures c == Canonicalize(v)
    decreases v
  {
    match v
    case Undefined => c := JNull;
    case Null => c := JNull;
    case Bool(b) => c := JBool(b);
    case Num(n) => c := JNum(n);
    case Str(s) => c := JStr(s);
    case Arr(items) =>
      var copies: seq<Json> := [];
      for i := 0 to |items|
        invariant |copies| == i && forall k :: 0 <= k < i ==> copies[k] == Canonicalize(items[k])
      {
        var copy := CanonicalizeValue(items[i]);
        copies := copies + [copy];
      }
      c := JArr(copies);
    case Obj(members) =>
      var order := SortedOrder(KeysOf(members));
      ghost var all := seq(|members|,
          i requires 0 <= i < |members| => JMember(members[i].key, Canonicalize(members[i].value)));
      var sorted: seq<JMember> := [];
      for i := 0 to |order|
        invariant sorted == Assemble(all, order[..i])
      {
        assert order[..i + 1][..i] == order[..i];
        var member := members[order[i]];
        var copy := CanonicalizeValue(member.value);
        if member.key != PROTO {
          sorted := Put(sorted, JMember(member.key, copy));
        }
      }
      assert order[..|order|] == order;
      c := JObj(sorted);
  }

  // ---------------------------------------------------------------- printing

  const NULL_TEXT: Text := [110, 117, 108, 108]
  const TRUE_TEXT: Text := [116, 114, 117, 101]
  const FALSE_TEXT: Text := [102, 97, 108, 115, 101]
  const ZERO_TEXT: Text := [48]

  function PrintNumber(n: Number): Text {
    match n
    case Numeral(text) => text
    case NegativeZero => ZERO_TEXT
    case NotFinite => NULL_TEXT
  }

  function Print(c: Json): Text
    decreases c, 0
  {
    match c
    case JNull => NULL_TEXT
    case JBool(b) => if b then TRUE_TEXT else FALSE_TEXT
    case JNum(n) => PrintNumber(n)
    case JStr(s) => Quoted(s)
    case JArr(items) =>
      [LBRACKET] + if items == [] then [RBRACKET] else Print(items[0]) + PrintItems(items[1..])
    case JObj(members) =>
      [LBRACE] + if members == [] then [RBRACE] else PrintMember(members[0]) + PrintMembers(members[1..])
  }

  function PrintMember(m: JMember): Text
    decreases m, 1
  {
    Quoted(m.key) + [COLON] + Print(m.value)
  }

  /** The items after the first, each behind a comma, and the closing bracket. */
  function PrintItems(items: seq<Json>): Text
    decreases items, 2
  {
    if items == [] then [RBRACKET] else [COMMA] + Print(items[0]) + PrintItems(items[1..])
  }

  function PrintMembers(members: seq<JMember>): Text
    decreases members, 2
  {
    if members == [] then [RBRACE] else [COMMA] + PrintMember(members[0]) + PrintMembers(members[1..])
  }

  function CanonicalText(v: Value): Text {
    Print(Canonicalize(v))
  }

  // ---------------------------------------------------------------- what a value means

  /** A JSON-like value up to key order. */
  datatype Meaning =
    | MNull
    | MBool(b: bool)
    | MNum(text: Text)
    | MStr(s: Text)
    | MArr(items: seq<Meaning>)
    | MObj(members: map<Text, Meaning>)

  function NumberMeaning(n: Number): Meaning {
    match n
    case Numeral(text) => MNum(text)
    case NegativeZero => MNum(ZERO_TEXT)
    case NotFinite => MNull
  }

  /** The meaning of a value; without `proto`, own properties named `__proto__` are passed over. */
  function MeaningOf(v: Value, proto: bool): Meaning
    decreases v, 0
  {
    match v
    case Undefined => MNull
    case Null => MNull
    case Bool(b) => MBool(b)
    case Num(n) => NumberMeaning(n)
    case Str(s) => MStr(s)
    case Arr(items) => MArr(seq(|items|, i requires 0 <= i < |items| => MeaningOf(items[i], proto)))
    case Obj(members) => MObj(MembersMeaning(members, proto))
  }

  function MembersMeaning(members: seq<Member>, proto: bool): map<Text, Meaning>
    decreases members, 1
  {
    if members == [] then map[]
    else
      var rest, m := MembersMeaning(members[1..], proto), members[0];
      if m.key == PROTO && !proto then rest else rest[m.key := MeaningOf(m.value, proto)]
  }

  function JMeaning(c: Json): Meaning
    decreases c, 0
  {
    match c
    case JNull => MNull
    case JBool(b) => MBool(b)
    case JNum(n) => NumberMeaning(n)
    case JStr(s) => MStr(s)
    case JArr(items) => MArr(seq(|items|, i requires 0 <= i < |items| => JMeaning(items[i])))
    case JObj(members) => MObj(JMembersMeaning(members))
  }

  function JMembersMeaning(members: seq<JMember>): map<Text, Meaning>
    decreases members, 1
  {
    if members == [] then map[] else JMembersMeaning(members[1..])[members[0].key := JMeaning(members[0].value)]
  }

  // ---------------------------------------------------------------- well-formed values

  predicate IsNumberUnit(c: CodeUnit) {
    IsDigitUnit(c) || c in {43, 45, 46, 101}
  }

  /** What printed numbers look like: digits, signs, a point, an exponent; first a digit or a minus. */
  predicate IsNumeral(t: Text) {
    t != [] && (t[0] == 45 || IsDigitUnit(t[0])) && forall i :: 0 <= i < |t| ==> IsNumberUnit(t[i])
  }

  predicate NumberOk(n: Number) {
    n.Numeral? ==> IsNumeral(n.text)
  }

  /** An object has each key once. */
  predicate WellFormed(v: Value)
    decreases v
  {
    match v
    case Num(n) => NumberOk(n)
    case Arr(items) => forall i :: 0 <= i < |items| ==> WellFormed(items[i])
    case Obj(members) =>
      && (forall i :: 0 <= i < |members| ==> WellFormed(members[i].value))
      && (forall i, j :: 0 <= i < j < |members| ==> members[i].key != members[j].key)
    case _ => true
  }

  ghost predicate KeysSorted(members: seq<JMember>) {
    forall i, j :: 0 <= i < j < |members| ==> KeyBefore(members[i].key, members[j].key)
  }

  /** Objects sorted at every depth, without `__proto__`. */
  ghost predicate Canonical(c: Json)
    decreases c
  {
    match c
    case JNum(n) => NumberOk(n)
    case JArr(items) => forall i :: 0 <= i < |items| ==> Canonical(items[i])
    case JObj(members) =>
      && KeysSorted(members)
      && (forall i :: 0 <= i < |members| ==> members[i].key != PROTO)
      && (forall i :: 0 <= i < |members| ==> Canonical(members[i].value))
    case _ => true
  }
}
