/**
 * Capability grants: a list of scopes is folded into a permission table, overwriting as it goes, and
 * must still grant exactly what its scopes grant one by one. A table is an ordinary object, so looking
 * up a name that every object inherits finds something that is no list, and using it as one throws.
 */
module Capabilities {
  import opened Options

  datatype Grant = Grant(resource: string, action: string)

  type Permissions = map<string, seq<string>>

  // ---------------------------------------------------------------- permission tables

  predicate Lists(p: Permissions, resource: string, action: string) {
    resource in p && action in p[resource]
  }

  predicate StarListed(p: Permissions, action: string) {
    Lists(p, "*", "*") || Lists(p, "*", action)
  }

  /** What the entries of a table grant. */
  predicate Granted(p: Permissions, g: Grant) {
    StarListed(p, g.action) || Lists(p, g.resource, "*") || Lists(p, g.resource, g.action)
  }

  /** The names that an ordinary object inherits (ECMAScript, sections 20.1.3 and B.2.2). */
  const INHERITED := {
    "constructor", "hasOwnProperty", "isPrototypeOf", "propertyIsEnumerable", "toLocaleString", "toString", "valueOf",
    "__proto__", "__defineGetter__", "__defineSetter__", "__lookupGetter__", "__lookupSetter__"}

  predicate Inherited(name: string) {
    name in INHERITED
  }

  datatype Outcome<+T> = Throws | Value(value: T)

  /** The `*` entry, then the resource's own entry; an inherited name without one throws. */
  function HasGrant(p: Permissions, g: Grant): Outcome<bool> {
    if StarListed(p, g.action) then Value(true)
    else if g.resource in p then Value("*" in p[g.resource] || g.action in p[g.resource])
    else if Inherited(g.resource) then Throws
    else Value(false)
  }

  /** Asking a table throws exactly when no `*` entry decides and the resource is inherited and not listed. */
  lemma HasGrantMeans(p: Permissions, g: Grant)
    ensures HasGrant(p, g).Throws? <==> !StarListed(p, g.action) && Inherited(g.resource) && g.resource !in p
    ensures HasGrant(p, g) == Value(true) <==> Granted(p, g)
  {
  }

  // ---------------------------------------------------------------- scopes

  /** The text up to the first colon. */
  function UpToColon(s: string): (t: string)
    ensures t <= s && ':' !in t
    ensures |t| < |s| ==> s[|t|] == ':'
  {
    if s == "" || s[0] == ':' then "" else [s[0]] + UpToColon(s[1..])
  }

  /** The first two parts between colons, where both are there and not empty. */
  function ParseScope(scope: string): Option<Grant> {
    var resource := UpToColon(scope);
    if resource == "" || resource == scope then None
    else
      var action := UpToColon(scope[|resource| + 1..]);
      if action == "" then None else Some(Grant(resource, action))
  }

  /** One scope entered into the table: `*` replaces whatever is listed under `*`. */
  function Enter(p: Permissions, scope: string): Outcome<Permissions> {
    if scope == "" then Value(p)
    else if scope == "*" then Value(p["*" := ["*"]])
    else
      var parsed := ParseScope(scope);
      if parsed.None? then Value(p)
      else if parsed.value.resource in p then
        Value(p[parsed.value.resource := p[parsed.value.resource] + [parsed.value.action]])
      else if Inherited(parsed.value.resource) then Throws
      else Value(p[parsed.value.resource := [parsed.value.action]])
  }

  function Table(scopes: seq<string>): Outcome<Permissions> {
    if scopes == [] then Value(map[])
    else
      var n := |scopes| - 1;
      var before := Table(scopes[..n]);
      if before.Throws? then Throws else Enter(before.value, scopes[n])
  }

  function ScopesGrant(scopes: Option<seq<string>>, g: Grant): Outcome<bool> {
    if scopes.None? || scopes.value == [] then Value(false)
    else
      var table := Table(scopes.value);
      if table.Throws? then Throws else HasGrant(table.value, g)
  }

  method HasScopeGrant(scopes: Option<seq<string>>, g: Grant) returns (granted: Outcome<bool>)
    ensures granted == ScopesGrant(scopes, g)
  {
    if scopes.None? || scopes.value == [] {
      return Value(false);
    }
    var permissions: Permissions := map[];
    for i := 0 to |scopes.value|
      invariant Table(scopes.value[..i]) == Value(permissions)
    {
      assert scopes.value[..i + 1][..i] == scopes.value[..i];
      var scope := scopes.value[i];
      if scope == "" {
        continue;
      }
      if scope == "*" {
        permissions := permissions["*" := ["*"]];
        continue;
      }
      var parsed := ParseScope(scope);
      if parsed.None? {
        continue;
      }
      var resource, action := parsed.value.resource, parsed.value.action;
      if resource !in permissions && Inherited(resource) {
        ThrowsForGood(scopes.value, i + 1);
        return Throws;
      }
      var listed := if resource in permissions then permissions[resource] else [];
      assert [] + [action] == [action];
      permissions := permissions[resource := listed + [action]];
    }
    assert scopes.value[..|scopes.value|] == scopes.value;
    granted := HasGrant(permissions, g);
  }

  lemma {:induction false} ThrowsForGood(scopes: seq<string>, n: nat)
    requires n <= |scopes| && Table(scopes[..n]).Throws?
    ensures Table(scopes).Throws?
  {
    if n < |scopes| {
      var m := |scopes| - 1;
      assert scopes[..m][..n] == scopes[..n];
      ThrowsForGood(scopes[..m], n);
    } else {
      assert scopes[..n] == scopes;
    }
  }

  /** `granted` covers `wanted`, where `*` stands for anything. */
  predicate Covers(granted: string, wanted: string) {
    granted == "*" || granted == wanted
  }

  /** `scope` is `resource:action`, or that with further parts. */
  predicate Reads(scope: string, resource: string, action: string, rest: string) {
    && scope == resource + ":" + action + rest
    && (rest == "" || rest[0] == ':')
    && resource != "" && ':' !in resource
    && action != "" && ':' !in action
  }

  /** What a single scope grants: everything, or the actions of a resource, either of them `*` for any. */
  ghost predicate OneScopeGrants(scope: string, g: Grant) {
    || scope == "*"
    || exists resource, action, rest ::
         Reads(scope, resource, action, rest) && Covers(resource, g.resource) && Covers(action, g.action)
  }

  lemma {:induction false} UpToColonIs(s: string, t: string, rest: string)
    requires s == t + rest && ':' !in t && (rest == "" || rest[0] == ':')
    ensures UpToColon(s) == t
  {
    if t == "" {
    } else {
      assert s[1..] == t[1..] + rest;
      UpToColonIs(s[1..], t[1..], rest);
      assert t == [t[0]] + t[1..];
    }
  }

  lemma ParsedIsRead(scope: string) returns (rest: string)
    requires ParseScope(scope).Some?
    ensures Reads(scope, ParseScope(scope).value.resource, ParseScope(scope).value.action, rest)
  {
    var resource := UpToColon(scope);
    var tail := scope[|resource| + 1..];
    var action := UpToColon(tail);
    rest := tail[|action|..];
    assert scope == resource + ":" + tail;
    assert tail == action + rest;
  }

  lemma ReadIsParsed(scope: string, resource: string, action: string, rest: string)
    requires Reads(scope, resource, action, rest)
    ensures ParseScope(scope) == Some(Grant(resource, action))
  {
    var tail := action + rest;
    assert scope == resource + (":" + tail);
    UpToColonIs(scope, resource, ":" + tail);
    assert scope[|resource| + 1..] == tail;
    UpToColonIs(tail, action, rest);
  }

  predicate ParsedCovers(parsed: Option<Grant>, g: Grant) {
    parsed.Some? && Covers(parsed.value.resource, g.resource) && Covers(parsed.value.action, g.action)
  }

  lemma ParsedScopeGrants(scope: string, g: Grant)
    ensures OneScopeGrants(scope, g) <==> scope == "*" || ParsedCovers(ParseScope(scope), g)
  {
    if ParsedCovers(ParseScope(scope), g) {
      var rest := ParsedIsRead(scope);
    }
    if resource, action, rest :|
      Reads(scope, resource, action, rest) && Covers(resource, g.resource) && Covers(action, g.action)
    {
      ReadIsParsed(scope, resource, action, rest);
    }
  }

  /** A scope for a name that every object inherits. */
  predicate Breaks(scope: string) {
    ParseScope(scope).Some? && Inherited(ParseScope(scope).value.resource)
  }

  /** No table that scopes make lists an inherited name. */
  predicate OwnOnly(p: Permissions) {
    forall resource :: resource in p ==> !Inherited(resource)
  }

  lemma EnterThrows(p: Permissions, scope: string)
    requires OwnOnly(p)
    ensures Enter(p, scope).Throws? <==> Breaks(scope)
    ensures Enter(p, scope).Value? ==> OwnOnly(Enter(p, scope).value)
  {
    if scope == "*" {
      assert UpToColon(scope) == scope;
    }
  }

  /** Entering a scope adds exactly what the scope grants: the overwritten entries grant nothing that `*` does not. */
  lemma EnterGrants(p: Permissions, scope: string, g: Grant)
    requires Enter(p, scope).Value?
    ensures Granted(Enter(p, scope).value, g) <==> Granted(p, g) || OneScopeGrants(scope, g)
  {
    ParsedScopeGrants(scope, g);
    if scope != "*" && ParseScope(scope).Some? {
      var s := ParseScope(scope).value;
      var q := Enter(p, scope).value;
      assert [] + [s.action] == [s.action];
      Appended(p, q, s.resource, s.action, "*", "*");
      Appended(p, q, s.resource, s.action, "*", g.action);
      Appended(p, q, s.resource, s.action, g.resource, "*");
      Appended(p, q, s.resource, s.action, g.resource, g.action);
    }
  }

  lemma Appended(p: Permissions, q: Permissions, resource: string, action: string, r: string, a: string)
    requires q == p[resource := (if resource in p then p[resource] else []) + [action]]
    ensures Lists(q, r, a) <==> Lists(p, r, a) || (r == resource && a == action)
  {
    if r == resource {
      var listed := if resource in p then p[resource] else [];
      assert a in listed + [action] <==> a in listed || a == action;
    }
  }

  ghost predicate SomeScopeGrants(scopes: seq<string>, g: Grant) {
    exists scope :: scope in scopes && OneScopeGrants(scope, g)
  }

  lemma OneMoreScope(scopes: seq<string>, last: string, g: Grant)
    ensures SomeScopeGrants(scopes + [last], g) <==> SomeScopeGrants(scopes, g) || OneScopeGrants(last, g)
  {
    var all := scopes + [last];
    if SomeScopeGrants(all, g) {
      var scope :| scope in all && OneScopeGrants(scope, g);
      assert scope in scopes || scope == last;
    }
    if SomeScopeGrants(scopes, g) {
      var scope :| scope in scopes && OneScopeGrants(scope, g);
      assert scope in all;
    }
    if OneScopeGrants(last, g) {
      assert last in all;
    }
  }

  predicate SomeBreaks(scopes: seq<string>) {
    exists i :: 0 <= i < |scopes| && Breaks(scopes[i])
  }

  /** Entering a scope list throws exactly when some scope in it names an inherited resource. */
  lemma {:induction false} TableThrows(scopes: seq<string>)
    ensures Table(scopes).Throws? <==> SomeBreaks(scopes)
    ensures Table(scopes).Value? ==> OwnOnly(Table(scopes).value)
  {
    if scopes != [] {
      var n := |scopes| - 1;
      TableThrows(scopes[..n]);
      if SomeBreaks(scopes[..n]) {
        var i :| 0 <= i < n && Breaks(scopes[..n][i]);
        assert Breaks(scopes[i]);
      } else {
        EnterThrows(Table(scopes[..n]).value, scopes[n]);
        assert forall i :: 0 <= i < n ==> scopes[..n][i] == scopes[i];
      }
    }
  }

  lemma {:induction false} TableGrants(scopes: seq<string>, g: Grant)
    requires Table(scopes).Value?
    ensures Granted(Table(scopes).value, g) <==> SomeScopeGrants(scopes, g)
  {
    if scopes != [] {
      var n := |scopes| - 1;
      TableGrants(scopes[..n], g);
      EnterGrants(Table(scopes[..n]).value, scopes[n], g);
      OneMoreScope(scopes[..n], scopes[n], g);
      assert scopes == scopes[..n] + [scopes[n]];
    }
  }

  /**
   * A scope list grants a capability exactly when some single scope in it does, unless asking throws:
   * for a scope that names an inherited resource, or for a capability on one that no scope grants.
   */
  lemma ScopesGrantOneByOne(scopes: seq<string>, g: Grant)
    ensures ScopesGrant(Some(scopes), g).Throws? <==>
            scopes != [] && (SomeBreaks(scopes) || (Inherited(g.resource) && !SomeScopeGrants(scopes, g)))
    ensures ScopesGrant(Some(scopes), g) == Value(true) <==> !SomeBreaks(scopes) && SomeScopeGrants(scopes, g)
  {
    TableThrows(scopes);
    if !SomeBreaks(scopes) {
      TableGrants(scopes, g);
      HasGrantMeans(Table(scopes).value, g);
    }
  }

  // ---------------------------------------------------------------- definitions

  datatype Risk = Low | Medium | High | Critical

  function Rank(risk: Risk): nat {
    match risk
    case Low => 0
    case Medium => 1
    case High => 2
    case Critical => 3
  }

  datatype Definition<!Context> = Definition(
    id: string,
    version: string,
    resource: string,
    action: string,
    risk: Risk,
    allowedActorTypes: Option<seq<string>>,
    requiredGrants: Option<seq<Grant>>,
    evaluateRisk: Option<Context -> Option<Risk>>)

  /** An evaluator can raise the risk of a capability, and never lower it. */
  function EvaluateRisk<Context>(d: Definition<Context>, context: Context): (risk: Risk)
    ensures Rank(d.risk) <= Rank(risk)
    ensures risk == d.risk || (d.evaluateRisk.Some? && d.evaluateRisk.value(context) == Some(risk))
    ensures d.evaluateRisk.Some? && d.evaluateRisk.value(context).Some? ==>
              Rank(d.evaluateRisk.value(context).value) <= Rank(risk)
  {
    var evaluated := if d.evaluateRisk.None? then d.risk else d.evaluateRisk.value(context).GetOr(d.risk);
    if Rank(evaluated) > Rank(d.risk) then evaluated else d.risk
  }

  predicate NeedsGrants<Context>(d: Definition<Context>) {
    d.requiredGrants.Some? && d.requiredGrants.value != []
  }

  function GrantsFor<Context>(d: Definition<Context>): seq<Grant> {
    if NeedsGrants(d) then d.requiredGrants.value else [Grant(d.resource, d.action)]
  }

  // ---------------------------------------------------------------- access

  datatype Source = ScopeGrant | PermissionGrant

  datatype Satisfied = Satisfied(source: Source, grant: Grant)

  function PermissionsGrant(p: Option<Permissions>, g: Grant): Outcome<bool> {
    if p.None? then Value(false) else HasGrant(p.value, g)
  }

  /** Ask the scopes, then the permissions, grant by grant, up to the first answer that is not no. */
  function FirstSatisfied(grants: seq<Grant>, scopes: Option<seq<string>>,
      p: Option<Permissions>): Outcome<Option<Satisfied>> {
    if grants == [] then Value(None)
    else
      var scoped := ScopesGrant(scopes, grants[0]);
      if scoped.Throws? then Throws
      else if scoped.value then Value(Some(Satisfied(ScopeGrant, grants[0])))
      else
        var permitted := PermissionsGrant(p, grants[0]);
        if permitted.Throws? then Throws
        else if permitted.value then Value(Some(Satisfied(PermissionGrant, grants[0])))
        else FirstSatisfied(grants[1..], scopes, p)
  }

  method FindSatisfiedGrant<Context>(d: Definition<Context>, scopes: Option<seq<string>>, p: Option<Permissions>)
    returns (found: Outcome<Option<Satisfied>>)
    ensures found == FirstSatisfied(GrantsFor(d), scopes, p)
  {
    var grants := GrantsFor(d);
    for i := 0 to |grants|
      invariant FirstSatisfied(grants, scopes, p) == FirstSatisfied(grants[i..], scopes, p)
    {
      assert grants[i..][1..] == grants[i + 1..];
      var scoped := HasScopeGrant(scopes, grants[i]);
      if scoped.Throws? {
        return Throws;
      }
      if scoped.value {
        return Value(Some(Satisfied(ScopeGrant, grants[i])));
      }
      var permitted := PermissionsGrant(p, grants[i]);
      if permitted.Throws? {
        return Throws;
      }
      if permitted.value {
        return Value(Some(Satisfied(PermissionGrant, grants[i])));
      }
    }
    found := Value(None);
  }

  predicate AnswersNo(g: Grant, scopes: Option<seq<string>>, p: Option<Permissions>) {
    ScopesGrant(scopes, g) == Value(false) && PermissionsGrant(p, g) == Value(false)
  }

  predicate AskingThrows(g: Grant, scopes: Option<seq<string>>, p: Option<Permissions>) {
    ScopesGrant(scopes, g).Throws? || (ScopesGrant(scopes, g) == Value(false) && PermissionsGrant(p, g).Throws?)
  }

  /** The search ends at the first grant that is not answered no, and nowhere else. */
  lemma {:induction false} FirstSatisfiedIs(grants: seq<Grant>, scopes: Option<seq<string>>, p: Option<Permissions>)
      returns (i: nat)
    ensures i <= |grants| && forall j :: 0 <= j < i ==> AnswersNo(grants[j], scopes, p)
    ensures i == |grants| <==> FirstSatisfied(grants, scopes, p) == Value(None)
    ensures i < |grants| ==> !AnswersNo(grants[i], scopes, p)
    ensures i < |grants| ==>
              (FirstSatisfied(grants, scopes, p).Throws? <==> AskingThrows(grants[i], scopes, p))
    ensures i < |grants| ==>
              var scoped, permitted := ScopesGrant(scopes, grants[i]), PermissionsGrant(p, grants[i]);
              FirstSatisfied(grants, scopes, p) ==
              if scoped == Value(true) then Value(Some(Satisfied(ScopeGrant, grants[i])))
              else if scoped == Value(false) && permitted == Value(true) then
                Value(Some(Satisfied(PermissionGrant, grants[i])))
              else Throws
  {
    i := 0;
    if grants != [] && AnswersNo(grants[0], scopes, p) {
      var rest := FirstSatisfiedIs(grants[1..], scopes, p);
      i := rest + 1;
      assert forall j :: 1 <= j < |grants| ==> grants[j] == grants[1..][j - 1];
    }
  }

  datatype Request<!Context> = Request(
    actor: Option<string>,
    callerType: Option<string>,
    scopes: Option<seq<string>>,
    permissions: Option<Permissions>,
    isInternal: bool,
    riskContext: Option<Context>)

  datatype Reason =
    | InternalRequest
    | GrantedBy(source: Source)
    | ActorAllowed
    | ActorMissing
    | ActorNotAllowed
    | GrantMissing

  datatype Access = Access(allowed: bool, reason: Reason, risk: Risk, grant: Option<Grant>)

  function EvaluateAccess<Context>(d: Definition<Context>, r: Request<Context>): Outcome<Access> {
    var risk := if r.riskContext.Some? then EvaluateRisk(d, r.riskContext.value) else d.risk;
    if r.isInternal || r.callerType == Some("internal") then Value(Access(true, InternalRequest, risk, None))
    else
      var search := FirstSatisfied(GrantsFor(d), r.scopes, r.permissions);
      if search.Throws? then Throws else Value(WithGrant(d, r, risk, search.value))
  }

  function WithGrant<Context>(d: Definition<Context>, r: Request<Context>, risk: Risk,
      found: Option<Satisfied>): Access {
    if found.Some? then Access(true, GrantedBy(found.value.source), risk, Some(found.value.grant))
    else if NeedsGrants(d) then Access(false, GrantMissing, risk, None)
    else if r.callerType == Some("api_key") then Access(false, GrantMissing, risk, None)
    else if r.actor.None? || r.actor == Some("") then Access(false, ActorMissing, risk, None)
    else if d.allowedActorTypes.Some? && d.allowedActorTypes.value != [] && r.actor.value !in d.allowedActorTypes.value
    then Access(false, ActorNotAllowed, risk, None)
    else Access(true, ActorAllowed, risk, None)
  }

  predicate Internal<Context>(r: Request<Context>) {
    r.isInternal || r.callerType == Some("internal")
  }

  /** Without a grant, an actor still gets in where no grants are required and its type is not excluded. */
  predicate ActorMayPass<Context>(d: Definition<Context>, r: Request<Context>) {
    && !NeedsGrants(d)
    && r.callerType != Some("api_key")
    && r.actor.Some? && r.actor.value != ""
    && (d.allowedActorTypes.GetOr([]) != [] ==> r.actor.value in d.allowedActorTypes.value)
  }

  ghost predicate GrantedTo<Context>(r: Request<Context>, g: Grant) {
    SomeScopeGrants(r.scopes.GetOr([]), g) || Granted(r.permissions.GetOr(map[]), g)
  }

  /** Nothing the request has decides about the grant, though it has something to be asked. */
  ghost predicate Undecided<Context>(r: Request<Context>, g: Grant) {
    && !SomeScopeGrants(r.scopes.GetOr([]), g)
    && (r.scopes.GetOr([]) != [] ||
        (r.permissions.Some? && g.resource !in r.permissions.value && !StarListed(r.permissions.value, g.action)))
  }

  /**
   * A scope names an inherited resource, or a grant on one is reached, before any grant the request
   * has, and nothing decides about it.
   */
  ghost predicate SearchThrows<Context>(grants: seq<Grant>, r: Request<Context>) {
    || SomeBreaks(r.scopes.GetOr([]))
    || exists i :: 0 <= i < |grants| && Inherited(grants[i].resource) && Undecided(r, grants[i])
                   && forall j :: 0 <= j < i ==> !GrantedTo(r, grants[j])
  }

  /** What asking about one grant comes to. */
  lemma AskedOnce<Context>(r: Request<Context>, g: Grant)
    requires !SomeBreaks(r.scopes.GetOr([]))
    ensures ScopesGrant(r.scopes, g) == Value(true) <==> SomeScopeGrants(r.scopes.GetOr([]), g)
    ensures AskingThrows(g, r.scopes, r.permissions) <==> Inherited(g.resource) && Undecided(r, g)
    ensures ScopesGrant(r.scopes, g) == Value(false) ==>
              (PermissionsGrant(r.permissions, g) == Value(true) <==> Granted(r.permissions.GetOr(map[]), g))
  {
    ScopesGrantOneByOne(r.scopes.GetOr([]), g);
    HasGrantMeans(r.permissions.GetOr(map[]), g);
  }

  lemma NoMeans<Context>(r: Request<Context>, g: Grant)
    requires !SomeBreaks(r.scopes.GetOr([])) && AnswersNo(g, r.scopes, r.permissions)
    ensures !GrantedTo(r, g) && !(Inherited(g.resource) && Undecided(r, g))
  {
    AskedOnce(r, g);
  }

  /** The first grant not answered no is one the request has, or asking about it throws. */
  lemma DecisionMeans<Context>(r: Request<Context>, g: Grant)
    requires !SomeBreaks(r.scopes.GetOr([]))
    ensures AskingThrows(g, r.scopes, r.permissions) <==> Inherited(g.resource) && Undecided(r, g)
    ensures !AnswersNo(g, r.scopes, r.permissions) && !AskingThrows(g, r.scopes, r.permissions) ==> GrantedTo(r, g)
  {
    AskedOnce(r, g);
    HasGrantMeans(r.permissions.GetOr(map[]), g);
  }

  lemma SearchMeans<Context>(grants: seq<Grant>, r: Request<Context>)
    requires grants != []
    ensures FirstSatisfied(grants, r.scopes, r.permissions).Throws? <==> SearchThrows(grants, r)
    ensures !SearchThrows(grants, r) ==>
              (FirstSatisfied(grants, r.scopes, r.permissions) == Value(None) <==>
                  forall i :: 0 <= i < |grants| ==> !GrantedTo(r, grants[i]))
  {
    if SomeBreaks(r.scopes.GetOr([])) {
      ScopesGrantOneByOne(r.scopes.GetOr([]), grants[0]);
    } else {
      var i := FirstSatisfiedIs(grants, r.scopes, r.permissions);
      forall j | 0 <= j < i
        ensures !GrantedTo(r, grants[j]) && !(Inherited(grants[j].resource) && Undecided(r, grants[j]))
      {
        NoMeans(r, grants[j]);
      }
      if i < |grants| {
        DecisionMeans(r, grants[i]);
      }
    }
  }

  /**
   * Access is allowed exactly to internal requests, to holders of one of the capability's grants, and
   * to passing actors, unless the search for a grant throws.
   */
  lemma AccessMeans<Context>(d: Definition<Context>, r: Request<Context>)
    ensures EvaluateAccess(d, r).Throws? <==> !Internal(r) && SearchThrows(GrantsFor(d), r)
    ensures EvaluateAccess(d, r).Value? ==>
              (EvaluateAccess(d, r).value.allowed <==>
               Internal(r) || (exists i :: 0 <= i < |GrantsFor(d)| && GrantedTo(r, GrantsFor(d)[i]))
                   || ActorMayPass(d, r))
  {
    SearchMeans(GrantsFor(d), r);
  }

  predicate Allows(outcome: Outcome<Access>) {
    outcome.Value? && outcome.value.allowed
  }

  // ---------------------------------------------------------------- more scopes never take access away

  predicate Extends(p: Permissions, q: Permissions) {
    forall resource :: resource in p ==>
      resource in q && forall action :: action in p[resource] ==> action in q[resource]
  }

  predicate AtLeast<Context>(r: Request<Context>, q: Request<Context>) {
    && r.actor == q.actor && r.callerType == q.callerType && r.isInternal == q.isInternal
    && (forall scope :: scope in r.scopes.GetOr([]) ==> scope in q.scopes.GetOr([]))
    && Extends(r.permissions.GetOr(map[]), q.permissions.GetOr(map[]))
  }

  lemma GrantedStill<Context>(r: Request<Context>, q: Request<Context>, g: Grant)
    requires AtLeast(r, q) && GrantedTo(r, g)
    ensures GrantedTo(q, g)
  {
    if SomeScopeGrants(r.scopes.GetOr([]), g) {
      var scope :| scope in r.scopes.GetOr([]) && OneScopeGrants(scope, g);
      assert scope in q.scopes.GetOr([]);
    }
  }

  /**
   * Adding scopes, reordering them, or adding permission entries turns an allowed decision into
   * something else exactly when the search with them throws; it never turns it into a denial.
   */
  lemma AccessIsMonotone<Context>(d: Definition<Context>, r: Request<Context>, q: Request<Context>)
    requires AtLeast(r, q) && Allows(EvaluateAccess(d, r))
    ensures Allows(EvaluateAccess(d, q)) <==> Internal(q) || !SearchThrows(GrantsFor(d), q)
    ensures EvaluateAccess(d, q).Value? ==> EvaluateAccess(d, q).value.allowed
  {
    AccessMeans(d, r);
    AccessMeans(d, q);
    if i :| 0 <= i < |GrantsFor(d)| && GrantedTo(r, GrantsFor(d)[i]) {
      GrantedStill(r, q, GrantsFor(d)[i]);
    }
  }

  /** Without inherited names among the scopes and the required grants, nothing throws. */
  lemma OrdinaryNamesNeverThrow<Context>(d: Definition<Context>, r: Request<Context>)
    requires forall i :: 0 <= i < |r.scopes.GetOr([])| ==> !Breaks(r.scopes.GetOr([])[i])
    requires forall i :: 0 <= i < |GrantsFor(d)| ==> !Inherited(GrantsFor(d)[i].resource)
    ensures EvaluateAccess(d, r).Value?
  {
    AccessMeans(d, r);
  }

  lemma BreakingScope()
    ensures Breaks("constructor:read")
  {
    ReadIsParsed("constructor:read", "constructor", "read", "");
  }

  lemma BreakingThrows<Context>(d: Definition<Context>, r: Request<Context>, i: nat)
    requires !Internal(r) && r.scopes.Some? && i < |r.scopes.value| && Breaks(r.scopes.value[i])
    ensures EvaluateAccess(d, r).Throws?
  {
    AccessMeans(d, r);
  }

  /** With one, a scope added to a list that grants everything makes the decision throw. */
  lemma ScopeCanTakeAccessAway<Context>(d: Definition<Context>, r: Request<Context>)
    requires r.scopes == Some(["*"]) && !Internal(r)
    ensures Allows(EvaluateAccess(d, r))
    ensures var q := r.(scopes := Some(["*", "constructor:read"]));
            AtLeast(r, q) && EvaluateAccess(d, q).Throws?
  {
    var q := r.(scopes := Some(["*", "constructor:read"]));
    BreakingScope();
    BreakingThrows(d, q, 1);
    EverythingGranted(d, r);
  }

  lemma EverythingGranted<Context>(d: Definition<Context>, r: Request<Context>)
    requires r.scopes == Some(["*"])
    ensures Allows(EvaluateAccess(d, r))
  {
    assert "*" in r.scopes.value && OneScopeGrants("*", GrantsFor(d)[0]);
    assert UpToColon("*") == "*";
    forall g
      ensures GrantedTo(r, g) && !Undecided(r, g)
    {
      assert OneScopeGrants("*", g);
    }
    AccessMeans(d, r);
  }

  // ---------------------------------------------------------------- registry keys

  function Key(id: string, version: string): string {
    id + "@" + version
  }

  /**
   * Two different ids can be given versions that make their keys equal exactly when one id continues
   * the other behind an `@`: only then can the registry take distinct capabilities for duplicates.
   */
  lemma KeysCanMeet(a: string, b: string)
    requires a != b
    ensures (exists v, w :: Key(a, v) == Key(b, w)) <==> a + "@" <= b || b + "@" <= a
  {
    if v, w :| Key(a, v) == Key(b, w) {
      if |a| <= |b| {
        MeetingKeys(a, b, v, w);
      } else {
        MeetingKeys(b, a, w, v);
      }
    }
    if a + "@" <= b {
      assert Key(a, b[|a| + 1..] + "@") == Key(b, "");
    }
    if b + "@" <= a {
      assert Key(b, a[|b| + 1..] + "@") == Key(a, "");
    }
  }

  lemma MeetingKeys(a: string, b: string, v: string, w: string)
    requires a != b && |a| <= |b| && Key(a, v) == Key(b, w)
    ensures a + "@" <= b
  {
    var key := Key(b, w);
    assert a == key[..|a|] && key[|a|] == '@' && b == key[..|b|];
  }

  datatype Registry<!Context> =
    | Duplicate(id: string, version: string)
    | Registry(byKey: map<string, Definition<Context>>)

  method CreateRegistry<Context>(definitions: seq<Definition<Context>>) returns (r: Registry<Context>)
    ensures r.Registry? <==>
            forall i, j :: 0 <= i < j < |definitions| ==>
              Key(definitions[i].id, definitions[i].version) != Key(definitions[j].id, definitions[j].version)
    ensures r.Registry? ==>
              forall i :: 0 <= i < |definitions| ==>
                var key := Key(definitions[i].id, definitions[i].version);
                key in r.byKey && r.byKey[key] == definitions[i]
    ensures r.Registry? ==>
              forall key :: key in r.byKey ==>
                exists i :: 0 <= i < |definitions| && key == Key(definitions[i].id, definitions[i].version)
    ensures r.Duplicate? ==>
              exists i, j :: 0 <= i < j < |definitions|
                && Key(definitions[i].id, definitions[i].version) == Key(r.id, r.version)
                && definitions[j].id == r.id && definitions[j].version == r.version
  {
    var byKey: map<string, Definition<Context>> := map[];
    for n := 0 to |definitions|
      invariant forall i, j :: 0 <= i < j < n ==>
                  Key(definitions[i].id, definitions[i].version) != Key(definitions[j].id, definitions[j].version)
      invariant forall i :: 0 <= i < n ==>
                  var key := Key(definitions[i].id, definitions[i].version);
                  key in byKey && byKey[key] == definitions[i]
      invariant forall key :: key in byKey ==>
                  exists i :: 0 <= i < n && key == Key(definitions[i].id, definitions[i].version)
    {
      var d := definitions[n];
      var key := Key(d.id, d.version);
      if key in byKey {
        return Duplicate(d.id, d.version);
      }
      byKey := byKey[key := d];
    }
    r := Registry.Registry(byKey);
  }
}
