/**
 * Fingerprints of commands: a hash of the canonical text of a record, in hexadecimal. Two commands
 * share a fingerprint exactly when they mean the same once every own property named `__proto__` is
 * taken out of their inputs, or the hash collides on their texts. The hash, from a text to the bytes
 * of its digest, is a parameter.
 */
module Fingerprints {
  import opened Options
  import opened JsonText
  import opened CanonicalJson
  import opened CanonicalMeaning

  type Byte = x: int | 0 <= x < 0x100

  type Hash = Text -> seq<Byte>

  // ---------------------------------------------------------------- hexadecimal

  function Hex(bytes: seq<Byte>): (t: Text)
    ensures |t| == 2 * |bytes|
  {
    if bytes == [] then []
    else
      var n := |bytes| - 1;
      Hex(bytes[..n]) + [HexDigit(bytes[n] / 16), HexDigit(bytes[n] % 16)]
  }

  method BytesToHex(bytes: seq<Byte>) returns (out: Text)
    ensures out == Hex(bytes)
  {
    out := [];
    for i := 0 to |bytes|
      invariant out == Hex(bytes[..i])
    {
      assert bytes[..i + 1][..i] == bytes[..i];
      out := out + [HexDigit(bytes[i] / 16), HexDigit(bytes[i] % 16)];
    }
    assert bytes[..|bytes|] == bytes;
  }

  lemma SameDigits(b: Byte, c: Byte)
    requires HexDigit(b / 16) == HexDigit(c / 16) && HexDigit(b % 16) == HexDigit(c % 16)
    ensures b == c
  {
    HexDigitInjective(b / 16, c / 16, HexDigit(b / 16), HexDigit(c / 16));
    HexDigitInjective(b % 16, c % 16, HexDigit(b % 16), HexDigit(c % 16));
    assert b == 16 * (b / 16) + b % 16 && c == 16 * (c / 16) + c % 16;
  }

  lemma SplitAlike(p: Text, x: Text, q: Text, y: Text)
    requires p + x == q + y && |p| == |q|
    ensures p == q && x == y
  {
    assert p == (p + x)[..|p|] && q == (q + y)[..|q|];
    Cancel(p, x, y);
  }

  lemma {:induction false} HexInjective(a: seq<Byte>, b: seq<Byte>)
    requires Hex(a) == Hex(b)
    ensures a == b
  {
    assert |a| == |b|;
    if a != [] {
      var n := |a| - 1;
      var x, y: Text := [HexDigit(a[n] / 16), HexDigit(a[n] % 16)], [HexDigit(b[n] / 16), HexDigit(b[n] % 16)];
      SplitAlike(Hex(a[..n]), x, Hex(b[..n]), y);
      HexInjective(a[..n], b[..n]);
      assert x[0] == y[0] && x[1] == y[1];
      SameDigits(a[n], b[n]);
      assert a == a[..n] + [a[n]] && b == b[..n] + [b[n]];
    }
  }

  // ---------------------------------------------------------------- records with optional fields

  datatype Field = Field(key: Text, value: Option<Value>)

  /** The members of an object literal: absent fields are left out. */
  function Present(fields: seq<Field>): seq<Member> {
    if fields == [] then []
    else (if fields[0].value.Some? then [Member(fields[0].key, fields[0].value.value)] else []) + Present(fields[1..])
  }

  /** The meaning as the canonical text keeps it: own properties named `__proto__` are passed over. */
  function KeptMeaning(v: Option<Value>): Option<Meaning> {
    if v.None? then None else Some(MeaningOf(v.value, false))
  }

  ghost predicate FieldKeys(fields: seq<Field>) {
    && (forall i :: 0 <= i < |fields| ==> fields[i].key != PROTO)
    && (forall i, j :: 0 <= i < j < |fields| ==> fields[i].key != fields[j].key)
  }

  ghost predicate Listed(fields: seq<Field>, m: Member) {
    exists j :: 0 <= j < |fields| && fields[j] == Field(m.key, Some(m.value))
  }

  lemma {:induction false} PresentKeys(fields: seq<Field>)
    ensures forall m :: m in Present(fields) ==> Listed(fields, m)
  {
    if fields != [] {
      var rest := fields[1..];
      PresentKeys(rest);
      forall m | m in Present(fields)
        ensures Listed(fields, m)
      {
        if m in Present(rest) {
          var j :| 0 <= j < |rest| && rest[j] == Field(m.key, Some(m.value));
          assert fields[j + 1] == rest[j];
        } else {
          assert fields[0] == Field(m.key, Some(m.value));
        }
      }
    }
  }

  lemma NewKey(fields: seq<Field>)
    requires FieldKeys(fields) && fields != []
    ensures forall i :: 0 <= i < |Present(fields[1..])| ==> Present(fields[1..])[i].key != fields[0].key
  {
    PresentKeys(fields[1..]);
    var rest := Present(fields[1..]);
    forall i | 0 <= i < |rest|
      ensures rest[i].key != fields[0].key
    {
      assert rest[i] in rest;
      var j :| 0 <= j < |fields[1..]| && fields[1..][j] == Field(rest[i].key, Some(rest[i].value));
      assert fields[j + 1].key == rest[i].key;
    }
  }

  lemma {:induction false} PresentWellFormed(fields: seq<Field>)
    requires FieldKeys(fields)
    requires forall i :: 0 <= i < |fields| && fields[i].value.Some? ==> WellFormed(fields[i].value.value)
    ensures WellFormed(Obj(Present(fields)))
  {
    if fields != [] {
      PresentWellFormed(fields[1..]);
      if fields[0].value.Some? {
        NewKey(fields);
        var rest, all := Present(fields[1..]), Present(fields);
        assert all == [Member(fields[0].key, fields[0].value.value)] + rest;
        forall i | 0 < i < |all|
          ensures all[i] == rest[i - 1] && all[i].key != all[0].key
        {
        }
      } else {
        assert Present(fields) == Present(fields[1..]);
      }
    }
  }

  lemma PresentMeaning(fields: seq<Field>)
    requires FieldKeys(fields) && fields != []
    ensures fields[0].key !in MembersMeaning(Present(fields[1..]), false)
    ensures MembersMeaning(Present(fields), false) ==
            Extend(MembersMeaning(Present(fields[1..]), false), fields[0].key, KeptMeaning(fields[0].value))
  {
    var rest := Present(fields[1..]);
    NewKey(fields);
    KeysComeFromMembers(rest);
    if fields[0].value.Some? {
      FirstMember(Member(fields[0].key, fields[0].value.value), rest);
    } else {
      assert Present(fields) == rest;
    }
  }

  lemma FirstMember(m: Member, rest: seq<Member>)
    requires m.key != PROTO
    ensures MembersMeaning([m] + rest, false) == MembersMeaning(rest, false)[m.key := MeaningOf(m.value, false)]
  {
    assert ([m] + rest)[1..] == rest;
  }

  lemma {:induction false} KeysComeFromMembers(members: seq<Member>)
    ensures forall k :: k in MembersMeaning(members, false) ==> exists i :: 0 <= i < |members| && members[i].key == k
  {
    if members != [] {
      KeysComeFromMembers(members[1..]);
      forall k | k in MembersMeaning(members[1..], false)
        ensures exists i :: 0 <= i < |members| && members[i].key == k
      {
        var i :| 0 <= i < |members[1..]| && members[1..][i].key == k;
        assert members[i + 1].key == k;
      }
    }
  }

  /** Records with the same fields mean the same exactly when every field does. */
  lemma {:induction false} RecordsMeanTheSame(f: seq<Field>, g: seq<Field>)
    requires |f| == |g| && FieldKeys(f) && FieldKeys(g) && forall i :: 0 <= i < |f| ==> f[i].key == g[i].key
    ensures MembersMeaning(Present(f), false) == MembersMeaning(Present(g), false) <==>
            forall i :: 0 <= i < |f| ==> KeptMeaning(f[i].value) == KeptMeaning(g[i].value)
  {
    if f != [] {
      RecordsMeanTheSame(f[1..], g[1..]);
      PresentMeaning(f);
      PresentMeaning(g);
      var a, b := MembersMeaning(Present(f[1..]), false), MembersMeaning(Present(g[1..]), false);
      OneMoreField(a, b, f[0].key, KeptMeaning(f[0].value), KeptMeaning(g[0].value));
      FirstAndRest(f, g);
    }
  }

  lemma FirstAndRest(f: seq<Field>, g: seq<Field>)
    requires |f| == |g| && f != []
    ensures (forall i :: 0 <= i < |f| ==> KeptMeaning(f[i].value) == KeptMeaning(g[i].value)) <==>
            && KeptMeaning(f[0].value) == KeptMeaning(g[0].value)
            && forall i :: 0 <= i < |f| - 1 ==> KeptMeaning(f[1..][i].value) == KeptMeaning(g[1..][i].value)
  {
    assert forall i :: 1 <= i < |f| ==> f[i] == f[1..][i - 1] && g[i] == g[1..][i - 1];
  }

  function Extend(m: map<Text, Meaning>, k: Text, v: Option<Meaning>): map<Text, Meaning> {
    if v.None? then m else m[k := v.value]
  }

  lemma OneMoreField(a: map<Text, Meaning>, b: map<Text, Meaning>, k: Text, u: Option<Meaning>, v: Option<Meaning>)
    requires k !in a && k !in b
    ensures Extend(a, k, u) == Extend(b, k, v) <==> a == b && u == v
  {
    var x, y := Extend(a, k, u), Extend(b, k, v);
    assert a == x - {k} && b == y - {k};
    assert u == (if k in x then Some(x[k]) else None) && v == (if k in y then Some(y[k]) else None);
  }

  // ---------------------------------------------------------------- idempotency fingerprints

  function Units(s: string): Text {
    seq(|s|, i requires 0 <= i < |s| => (s[i] as int) % 0x10000)
  }

  datatype IdempotencyInput = IdempotencyInput(
    actionName: Text,
    actionVersion: Text,
    targetType: Text,
    targetId: Text,
    commandInput: Option<Value>,
    policyInputs: Option<Value>)

  function InputFields(x: IdempotencyInput): seq<Field> {
    [ Field(Units("actionName"), Some(Str(x.actionName))),
      Field(Units("actionVersion"), Some(Str(x.actionVersion))),
      Field(Units("targetType"), Some(Str(x.targetType))),
      Field(Units("targetId"), Some(Str(x.targetId))),
      Field(Units("commandInput"), x.commandInput),
      Field(Units("policyInputs"), x.policyInputs) ]
  }

  function InputText(x: IdempotencyInput): Text {
    CanonicalText(Obj(Present(InputFields(x))))
  }

  const PREFIX: Text := Units("sha256:")

  function Fingerprint(hash: Hash, text: Text): Text {
    PREFIX + Hex(hash(text))
  }

  function IdempotencyFingerprint(hash: Hash, x: IdempotencyInput): Text {
    Fingerprint(hash, InputText(x))
  }

  predicate OptionalWellFormed(v: Option<Value>) {
    v.Some? ==> WellFormed(v.value)
  }

  predicate InputWellFormed(x: IdempotencyInput) {
    OptionalWellFormed(x.commandInput) && OptionalWellFormed(x.policyInputs)
  }

  /** Equal names, and inputs that are both absent or the same as far as the text keeps them. */
  predicate InputsAlike(x: IdempotencyInput, y: IdempotencyInput) {
    && x.actionName == y.actionName
    && x.actionVersion == y.actionVersion
    && x.targetType == y.targetType
    && x.targetId == y.targetId
    && KeptMeaning(x.commandInput) == KeptMeaning(y.commandInput)
    && KeptMeaning(x.policyInputs) == KeptMeaning(y.policyInputs)
  }

  predicate Collide(hash: Hash, a: Text, b: Text) {
    a != b && hash(a) == hash(b)
  }

  lemma InputKeys(x: IdempotencyInput)
    ensures FieldKeys(InputFields(x))
  {
    var f := InputFields(x);
    assert |f[0].key| == |f[2].key| == 10 && |f[1].key| == 13 && |f[3].key| == 8 && |f[4].key| == |f[5].key| == 12;
    assert f[0].key[0] == 97 && f[2].key[0] == 116 && f[4].key[0] == 99 && f[5].key[0] == 112;
  }

  lemma FingerprintsMeet(hash: Hash, a: Text, b: Text)
    ensures Fingerprint(hash, a) == Fingerprint(hash, b) <==> a == b || Collide(hash, a, b)
  {
    if Fingerprint(hash, a) == Fingerprint(hash, b) {
      Cancel(PREFIX, Hex(hash(a)), Hex(hash(b)));
      HexInjective(hash(a), hash(b));
    }
  }

  lemma RecordTextDecides(f: seq<Field>, g: seq<Field>)
    requires |f| == |g| && FieldKeys(f) && FieldKeys(g) && forall i :: 0 <= i < |f| ==> f[i].key == g[i].key
    requires forall i :: 0 <= i < |f| ==> OptionalWellFormed(f[i].value) && OptionalWellFormed(g[i].value)
    ensures CanonicalText(Obj(Present(f))) == CanonicalText(Obj(Present(g))) <==>
            forall i :: 0 <= i < |f| ==> KeptMeaning(f[i].value) == KeptMeaning(g[i].value)
  {
    PresentWellFormed(f);
    PresentWellFormed(g);
    TextDecidesMeaning(Obj(Present(f)), Obj(Present(g)));
    RecordsMeanTheSame(f, g);
  }

  lemma InputFieldsDecide(x: IdempotencyInput, y: IdempotencyInput, f: seq<Field>, g: seq<Field>)
    requires |f| == |g| == 6
    requires f[0].value == Some(Str(x.actionName)) && g[0].value == Some(Str(y.actionName))
    requires f[1].value == Some(Str(x.actionVersion)) && g[1].value == Some(Str(y.actionVersion))
    requires f[2].value == Some(Str(x.targetType)) && g[2].value == Some(Str(y.targetType))
    requires f[3].value == Some(Str(x.targetId)) && g[3].value == Some(Str(y.targetId))
    requires f[4].value == x.commandInput && g[4].value == y.commandInput
    requires f[5].value == x.policyInputs && g[5].value == y.policyInputs
    ensures (forall i :: 0 <= i < |f| ==> KeptMeaning(f[i].value) == KeptMeaning(g[i].value)) <==> InputsAlike(x, y)
  {
    SixFields(f, g);
  }

  lemma InputTextDecides(x: IdempotencyInput, y: IdempotencyInput)
    requires InputWellFormed(x) && InputWellFormed(y)
    ensures InputText(x) == InputText(y) <==> InputsAlike(x, y)
  {
    InputKeys(x);
    InputKeys(y);
    RecordTextDecides(InputFields(x), InputFields(y));
    InputFieldsDecide(x, y, InputFields(x), InputFields(y));
  }

  lemma SixFields(f: seq<Field>, g: seq<Field>)
    requires |f| == |g| == 6
    ensures (forall i :: 0 <= i < |f| ==> KeptMeaning(f[i].value) == KeptMeaning(g[i].value)) <==>
            && KeptMeaning(f[0].value) == KeptMeaning(g[0].value)
            && KeptMeaning(f[1].value) == KeptMeaning(g[1].value)
            && KeptMeaning(f[2].value) == KeptMeaning(g[2].value)
            && KeptMeaning(f[3].value) == KeptMeaning(g[3].value)
            && KeptMeaning(f[4].value) == KeptMeaning(g[4].value)
            && KeptMeaning(f[5].value) == KeptMeaning(g[5].value)
  {
  }

  // ---------------------------------------------------------------- which commands share a fingerprint

  function WholeMeaning(v: Option<Value>): Option<Meaning> {
    if v.None? then None else Some(MeaningOf(v.value, true))
  }

  /** The same command: equal names, and inputs that are both absent or mean the same. */
  predicate SameInput(x: IdempotencyInput, y: IdempotencyInput) {
    && x.actionName == y.actionName
    && x.actionVersion == y.actionVersion
    && x.targetType == y.targetType
    && x.targetId == y.targetId
    && WholeMeaning(x.commandInput) == WholeMeaning(y.commandInput)
    && WholeMeaning(x.policyInputs) == WholeMeaning(y.policyInputs)
  }

  function StripOptional(v: Option<Value>): Option<Value> {
    if v.None? then None else Some(Strip(v.value))
  }

  function StripInput(x: IdempotencyInput): IdempotencyInput {
    x.(commandInput := StripOptional(x.commandInput), policyInputs := StripOptional(x.policyInputs))
  }

  lemma StripKeeps(v: Option<Value>)
    ensures WholeMeaning(StripOptional(v)) == KeptMeaning(v)
  {
    if v.Some? {
      StripMeaning(v.value);
    }
  }

  lemma StrippedInputs(x: IdempotencyInput, y: IdempotencyInput)
    ensures SameInput(StripInput(x), StripInput(y)) <==> InputsAlike(x, y)
  {
    StripKeeps(x.commandInput);
    StripKeeps(y.commandInput);
    StripKeeps(x.policyInputs);
    StripKeeps(y.policyInputs);
  }

  /**
   * Two requests share an idempotency fingerprint exactly when they are the same command once own
   * properties named `__proto__` are taken out at every depth, or their texts collide.
   */
  lemma IdempotencyFingerprintDecides(hash: Hash, x: IdempotencyInput, y: IdempotencyInput)
    requires InputWellFormed(x) && InputWellFormed(y)
    ensures IdempotencyFingerprint(hash, x) == IdempotencyFingerprint(hash, y) <==>
            SameInput(StripInput(x), StripInput(y)) || Collide(hash, InputText(x), InputText(y))
  {
    InputTextDecides(x, y);
    StrippedInputs(x, y);
    FingerprintsMeet(hash, InputText(x), InputText(y));
  }

  predicate OptionalProtoFree(v: Option<Value>) {
    v.Some? ==> ProtoFree(v.value)
  }

  lemma StripNothing(v: Option<Value>)
    requires OptionalProtoFree(v)
    ensures StripOptional(v) == v
  {
    if v.Some? {
      StripIsIdentity(v.value);
    }
  }

  /** For commands without such a property, exactly when they are the same command, or their texts collide. */
  lemma IdempotencyFingerprintDecidesWhole(hash: Hash, x: IdempotencyInput, y: IdempotencyInput)
    requires InputWellFormed(x) && InputWellFormed(y)
    requires OptionalProtoFree(x.commandInput) && OptionalProtoFree(x.policyInputs)
    requires OptionalProtoFree(y.commandInput) && OptionalProtoFree(y.policyInputs)
    ensures IdempotencyFingerprint(hash, x) == IdempotencyFingerprint(hash, y) <==>
            SameInput(x, y) || Collide(hash, InputText(x), InputText(y))
  {
    IdempotencyFingerprintDecides(hash, x, y);
    StripNothing(x.commandInput);
    StripNothing(x.policyInputs);
    StripNothing(y.commandInput);
    StripNothing(y.policyInputs);
  }

  const PROTO_ONLY := Obj([Member(PROTO, Bool(true))])

  lemma ProtoOnly()
    ensures WellFormed(PROTO_ONLY) && WellFormed(Obj([])) && Strip(PROTO_ONLY) == Obj([])
    ensures MeaningOf(PROTO_ONLY, true) != MeaningOf(Obj([]), true)
  {
    assert PROTO_ONLY.members[1..] == [];
    assert StripMembers(PROTO_ONLY.members) == [] + StripMembers([]) == [];
    assert PROTO in MembersMeaning(PROTO_ONLY.members, true);
  }

  /** With one, different commands share a fingerprint under every hash, without a collision. */
  lemma DifferentCommandsCanShare(hash: Hash, x: IdempotencyInput)
    requires OptionalWellFormed(x.policyInputs)
    ensures var a, b := x.(commandInput := Some(PROTO_ONLY)), x.(commandInput := Some(Obj([])));
            && !SameInput(a, b) && InputText(a) == InputText(b)
            && IdempotencyFingerprint(hash, a) == IdempotencyFingerprint(hash, b)
  {
    var a, b := x.(commandInput := Some(PROTO_ONLY)), x.(commandInput := Some(Obj([])));
    ProtoOnly();
    assert Strip(Obj([])) == Obj([]);
    StrippedInputs(a, b);
    InputTextDecides(a, b);
  }

  // ---------------------------------------------------------------- approval fingerprints

  datatype ApprovalInput = ApprovalInput(
    actionName: Text,
    actionVersion: Text,
    targetType: Text,
    targetId: Text,
    commandInput: Option<Value>,
    approvalPolicy: Text,
    capabilityId: Text,
    capabilityVersion: Text,
    evaluatedRisk: Text,
    reasonCode: Option<Text>,
    createdTarget: Option<Value>)

  /** `value ?? null` */
  function OrNull(v: Option<Value>): Value {
    if v.None? || v.value.Undefined? then Null else v.value
  }

  function ReasonValue(code: Option<Text>): Value {
    if code.None? then Null else Str(code.value)
  }

  function PolicyFields(x: ApprovalInput): seq<Field> {
    [ Field(Units("approvalPolicy"), Some(Str(x.approvalPolicy))),
      Field(Units("capabilityId"), Some(Str(x.capabilityId))),
      Field(Units("capabilityVersion"), Some(Str(x.capabilityVersion))),
      Field(Units("evaluatedRisk"), Some(Str(x.evaluatedRisk))),
      Field(Units("reasonCode"), Some(ReasonValue(x.reasonCode))),
      Field(Units("createdTarget"), x.createdTarget) ]
  }

  function ApprovalCommand(x: ApprovalInput): IdempotencyInput {
    IdempotencyInput(x.actionName, x.actionVersion, x.targetType, x.targetId,
                     Some(OrNull(x.commandInput)), Some(Obj(Present(PolicyFields(x)))))
  }

  function ApprovalFingerprint(hash: Hash, x: ApprovalInput): Text {
    IdempotencyFingerprint(hash, ApprovalCommand(x))
  }

  predicate ApprovalWellFormed(x: ApprovalInput) {
    OptionalWellFormed(x.commandInput) && OptionalWellFormed(x.createdTarget)
  }

  predicate PoliciesAlike(x: ApprovalInput, y: ApprovalInput) {
    && x.approvalPolicy == y.approvalPolicy
    && x.capabilityId == y.capabilityId
    && x.capabilityVersion == y.capabilityVersion
    && x.evaluatedRisk == y.evaluatedRisk
    && x.reasonCode == y.reasonCode
    && KeptMeaning(x.createdTarget) == KeptMeaning(y.createdTarget)
  }

  /** The same, for approvals; an absent command input is a null one. */
  predicate ApprovalsAlike(x: ApprovalInput, y: ApprovalInput) {
    && x.actionName == y.actionName
    && x.actionVersion == y.actionVersion
    && x.targetType == y.targetType
    && x.targetId == y.targetId
    && KeptMeaning(x.commandInput).GetOr(MNull) == KeptMeaning(y.commandInput).GetOr(MNull)
    && PoliciesAlike(x, y)
  }

  lemma PolicyKeys(x: ApprovalInput)
    ensures FieldKeys(PolicyFields(x))
  {
    var f := PolicyFields(x);
    assert |f[0].key| == 14 && |f[1].key| == 12 && |f[2].key| == 17 && |f[3].key| == |f[5].key| == 13
        && |f[4].key| == 10;
    assert f[3].key[0] == 101 && f[5].key[0] == 99;
  }

  lemma PoliciesMeanTheSame(x: ApprovalInput, y: ApprovalInput, f: seq<Field>, g: seq<Field>)
    requires |f| == |g| == 6 && FieldKeys(f) && FieldKeys(g) && forall i :: 0 <= i < 6 ==> f[i].key == g[i].key
    requires f[0].value == Some(Str(x.approvalPolicy)) && g[0].value == Some(Str(y.approvalPolicy))
    requires f[1].value == Some(Str(x.capabilityId)) && g[1].value == Some(Str(y.capabilityId))
    requires f[2].value == Some(Str(x.capabilityVersion)) && g[2].value == Some(Str(y.capabilityVersion))
    requires f[3].value == Some(Str(x.evaluatedRisk)) && g[3].value == Some(Str(y.evaluatedRisk))
    requires f[4].value == Some(ReasonValue(x.reasonCode)) && g[4].value == Some(ReasonValue(y.reasonCode))
    requires f[5].value == x.createdTarget && g[5].value == y.createdTarget
    ensures MembersMeaning(Present(f), false) == MembersMeaning(Present(g), false) <==> PoliciesAlike(x, y)
  {
    RecordsMeanTheSame(f, g);
    SixFields(f, g);
  }

  lemma PolicyWellFormed(x: ApprovalInput)
    requires ApprovalWellFormed(x)
    ensures WellFormed(Obj(Present(PolicyFields(x))))
  {
    PolicyKeys(x);
    PresentWellFormed(PolicyFields(x));
  }

  /** What is hashed for two approvals means the same exactly when the approvals do. */
  lemma ApprovalCommandsAlike(x: ApprovalInput, y: ApprovalInput)
    ensures InputsAlike(ApprovalCommand(x), ApprovalCommand(y)) <==> ApprovalsAlike(x, y)
  {
    PolicyKeys(x);
    PolicyKeys(y);
    PoliciesMeanTheSame(x, y, PolicyFields(x), PolicyFields(y));
  }

  /** The same approved command; an absent command input is a null one. */
  predicate SameApproval(x: ApprovalInput, y: ApprovalInput) {
    && x.actionName == y.actionName
    && x.actionVersion == y.actionVersion
    && x.targetType == y.targetType
    && x.targetId == y.targetId
    && WholeMeaning(x.commandInput).GetOr(MNull) == WholeMeaning(y.commandInput).GetOr(MNull)
    && x.approvalPolicy == y.approvalPolicy
    && x.capabilityId == y.capabilityId
    && x.capabilityVersion == y.capabilityVersion
    && x.evaluatedRisk == y.evaluatedRisk
    && x.reasonCode == y.reasonCode
    && WholeMeaning(x.createdTarget) == WholeMeaning(y.createdTarget)
  }

  function StripApproval(x: ApprovalInput): ApprovalInput {
    x.(commandInput := StripOptional(x.commandInput), createdTarget := StripOptional(x.createdTarget))
  }

  lemma StrippedApprovals(x: ApprovalInput, y: ApprovalInput)
    ensures SameApproval(StripApproval(x), StripApproval(y)) <==> ApprovalsAlike(x, y)
  {
    StripKeeps(x.commandInput);
    StripKeeps(y.commandInput);
    StripKeeps(x.createdTarget);
    StripKeeps(y.createdTarget);
  }

  function ApprovalText(x: ApprovalInput): Text {
    InputText(ApprovalCommand(x))
  }

  lemma ApprovalTextDecides(x: ApprovalInput, y: ApprovalInput)
    requires ApprovalWellFormed(x) && ApprovalWellFormed(y)
    ensures ApprovalText(x) == ApprovalText(y) <==> SameApproval(StripApproval(x), StripApproval(y))
  {
    PolicyWellFormed(x);
    PolicyWellFormed(y);
    ApprovalCommandsAlike(x, y);
    StrippedApprovals(x, y);
    InputTextDecides(ApprovalCommand(x), ApprovalCommand(y));
  }

  /**
   * An approval can be reused for a command exactly when nothing that was approved has changed but own
   * properties named `__proto__`, or the texts collide.
   */
  lemma ApprovalFingerprintDecides(hash: Hash, x: ApprovalInput, y: ApprovalInput)
    requires ApprovalWellFormed(x) && ApprovalWellFormed(y)
    ensures ApprovalFingerprint(hash, x) == ApprovalFingerprint(hash, y) <==>
            SameApproval(StripApproval(x), StripApproval(y)) || Collide(hash, ApprovalText(x), ApprovalText(y))
  {
    ApprovalTextDecides(x, y);
    FingerprintsMeet(hash, ApprovalText(x), ApprovalText(y));
  }

  /** Without such properties, exactly when nothing that was approved has changed, or the texts collide. */
  lemma ApprovalFingerprintDecidesWhole(hash: Hash, x: ApprovalInput, y: ApprovalInput)
    requires ApprovalWellFormed(x) && ApprovalWellFormed(y)
    requires OptionalProtoFree(x.commandInput) && OptionalProtoFree(x.createdTarget)
    requires OptionalProtoFree(y.commandInput) && OptionalProtoFree(y.createdTarget)
    ensures ApprovalFingerprint(hash, x) == ApprovalFingerprint(hash, y) <==>
            SameApproval(x, y) || Collide(hash, ApprovalText(x), ApprovalText(y))
  {
    ApprovalFingerprintDecides(hash, x, y);
    StripNothing(x.commandInput);
    StripNothing(x.createdTarget);
    StripNothing(y.commandInput);
    StripNothing(y.createdTarget);
  }

  /** With one, an approval covers a different command under every hash, without a collision. */
  lemma DifferentApprovalsCanShare(hash: Hash, x: ApprovalInput)
    requires OptionalWellFormed(x.createdTarget)
    ensures var a, b := x.(commandInput := Some(PROTO_ONLY)), x.(commandInput := Some(Obj([])));
            && !SameApproval(a, b) && ApprovalText(a) == ApprovalText(b)
            && ApprovalFingerprint(hash, a) == ApprovalFingerprint(hash, b)
  {
    var a, b := x.(commandInput := Some(PROTO_ONLY)), x.(commandInput := Some(Obj([])));
    ProtoOnly();
    assert Strip(Obj([])) == Obj([]);
    assert StripApproval(a) == StripApproval(b);
    ApprovalTextDecides(a, b);
  }
}
