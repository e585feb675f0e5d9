/** Access permissions of the form app:resource:method, the host groups a list of roles
    grants, and the hosts a user then sees. */
module Permissions {
  import opened Tables
  import opened Collections
  import opened Strings
  import opened QueryLang
  import opened HostFilters

  datatype Permission = Permission(text: string, app: string, resource: string, method_: string)

  /** Text with exactly two colons is a permission. */
  function Parse(text: string): Option<Permission> {
    var parts := Split(text, ':');
    if |parts| == 3 then Some(Permission(text, parts[0], parts[1], parts[2])) else None
  }

  /** The outer permission contains the inner one. */
  predicate Contains(outer: Permission, inner: Permission) {
    if outer.text == inner.text then true
    else if !(outer.app == inner.app || outer.app == "*") then false
    else if !(outer.resource == inner.resource || outer.resource == "*") then false
    else if outer.method_ == "*" then true
    else if outer.method_ == inner.method_ then true
    else inner.method_ == "read" && outer.method_ == "write"
  }

  predicate Genuine(p: Permission) {
    Parse(p.text) == Some(p)
  }

  /** Permissions with the same three parts are the same text. */
  lemma PartsDetermineText(p: Permission, q: Permission)
    requires Genuine(p) && Genuine(q)
    requires p.app == q.app && p.resource == q.resource && p.method_ == q.method_
    ensures p == q
  {
    JoinSplit(p.text, ':');
    JoinSplit(q.text, ':');
    assert Split(p.text, ':') == [p.app, p.resource, p.method_] == Split(q.text, ':');
  }

  /** Containment is a partial order: reflexive, antisymmetric and transitive. */
  lemma ContainmentIsPartialOrder(p: Permission, q: Permission, r: Permission)
    requires Genuine(p) && Genuine(q) && Genuine(r)
    ensures Contains(p, p)
    ensures Contains(p, q) && Contains(q, p) ==> p == q
    ensures Contains(p, q) && Contains(q, r) ==> Contains(p, r)
  {
    if Contains(p, q) && Contains(q, p) {
      PartsDetermineText(p, q);
    }
  }

  predicate Spelled(text: string, app: string, resource: string, method_: string) {
    text == app + ":" + resource + ":" + method_
  }

  /** A text is read as its three parts between two colons, and only then as a permission. */
  lemma ParseExactly(text: string, p: Permission)
    ensures Parse(text) == Some(p) <==>
              && p.text == text && Spelled(text, p.app, p.resource, p.method_)
              && ':' !in p.app && ':' !in p.resource && ':' !in p.method_
  {
    if Parse(text) == Some(p) {
      JoinSplit(text, ':');
      JoinThree(p.app, p.resource, p.method_);
      var parts := Split(text, ':');
      assert parts == [p.app, p.resource, p.method_];
      assert ':' !in parts[0] && ':' !in parts[1] && ':' !in parts[2];
    } else if Spelled(text, p.app, p.resource, p.method_) && ':' !in p.app && ':' !in p.resource && ':' !in p.method_ {
      JoinThree(p.app, p.resource, p.method_);
      SplitJoin([p.app, p.resource, p.method_], ':');
    }
  }

  lemma JoinThree(a: string, b: string, c: string)
    ensures Spelled(Join([a, b, c], ':'), a, b, c)
  {
    assert [a, b, c][1..] == [b, c] && [b, c][1..] == [c];
    assert Join([b, c], ':') == b + ":" + c;
    assert a + ":" + (b + ":" + c) == a + ":" + b + ":" + c;
  }

  /** The permission gives this access: each of its parts is the access's or a star, and writing
      takes in reading. */
  predicate Gives(p: Permission, app: string, resource: string, method_: string) {
    && (p.app == app || p.app == "*") && (p.resource == resource || p.resource == "*")
    && (p.method_ == method_ || p.method_ == "*" || (p.method_ == "write" && method_ == "read"))
  }

  /** One permission contains another exactly when it gives every access the other gives. */
  lemma ContainsExactly(outer: Permission, inner: Permission)
    requires Genuine(outer) && Genuine(inner)
    ensures Contains(outer, inner) <==>
              forall app, resource, method_ ::
                Gives(inner, app, resource, method_) ==> Gives(outer, app, resource, method_)
  {
    if outer.text == inner.text {
      assert outer == inner;
    }
    if !Contains(outer, inner) {
      var app := if inner.app == "*" then outer.app + "x" else inner.app;
      var resource := if inner.resource == "*" then outer.resource + "x" else inner.resource;
      var method_ := if inner.method_ == "*" then outer.method_ + "readx" else inner.method_;
      assert |outer.app + "x"| > |outer.app| && |outer.resource + "x"| > |outer.resource|;
      assert |outer.method_ + "readx"| > |outer.method_| && |outer.method_ + "readx"| > |"read"|;
      assert Gives(inner, app, resource, method_) && !Gives(outer, app, resource, method_);
    }
  }

  // ---------- roles ----------

  /** The value of an attribute filter: a list of group ids, in which null stands for no
      group; the same list as JSON text, with what decoding it gives; anything else; or none. */
  datatype FilterValue =
    | GroupList(groups: seq<Option<string>>)
    | Encoded(text: string, decoded: Option<seq<Option<string>>>)
    | OtherValue
    | NoValue

  datatype Definition = NoAttributeFilter | AttributeFilter(key: Option<string>, value: FilterValue)

  datatype Resources = NoDefinitions | Definitions(defs: seq<Definition>)

  datatype PermissionField = NoPermission | NotText | PermissionText(text: string)

  datatype Role = Role(permission: PermissionField, resources: Resources)

  /** What scanning a definition or a role comes to: an exception, or the groups it adds. */
  datatype Gain = Breaks | Adds(groups: seq<Option<string>>)

  function DefinitionGain(d: Definition): Gain {
    if d.NoAttributeFilter? || (d.key.None? && d.value.NoValue?) then Adds([])
    else if d.key.None? then Breaks
    else if d.key.value != "group.id" then Adds([])
    else
      match d.value
      case NoValue => Breaks
      case OtherValue => Adds([])
      case GroupList(groups) => Adds(groups)
      case Encoded(text, decoded) =>
        if text == "" then Breaks
        else if text[0] != '[' || text[|text| - 1] != ']' then Adds([])
        else match decoded case None => Breaks case Some(groups) => Adds(groups)
  }

  /** Text that starts with '[' and ends with ']'. */
  predicate InBrackets(text: string) {
    |text| >= 2 && text[0] == '[' && text[|text| - 1] == ']'
  }

  /** The definition lists the group: its attribute filter has the key "group.id", and its value is
      a list with the group, or text in brackets that decodes to one. */
  predicate Lists(d: Definition, group: Option<string>) {
    && d.AttributeFilter? && d.key == Some("group.id")
    && match d.value
       case GroupList(groups) => group in groups
       case Encoded(text, decoded) => InBrackets(text) && decoded.Some? && group in decoded.value
       case _ => false
  }

  /** The definition raises: its attribute filter has a value without a key; or it has the key
      "group.id" and no value, an empty text, or a text in brackets that does not decode. */
  predicate Raises(d: Definition) {
    && d.AttributeFilter?
    && if d.key == None then d.value != NoValue
       else
         && d.key == Some("group.id")
         && match d.value
            case NoValue => true
            case Encoded(text, decoded) => text == "" || (InBrackets(text) && decoded == None)
            case _ => false
  }

  /** What scanning one definition comes to. */
  lemma DefinitionExactly(d: Definition)
    ensures DefinitionGain(d).Breaks? <==> Raises(d)
    ensures DefinitionGain(d).Adds? ==> forall g :: g in DefinitionGain(d).groups <==> Lists(d, g)
    ensures Raises(d) ==> forall g :: !Lists(d, g)
  {
  }

  const SOUGHT := Permission("inventory:hosts:read", "inventory", "hosts", "read")

  lemma SoughtIsGenuine()
    ensures Genuine(SOUGHT)
  {
    var parts := ["inventory", "hosts", "read"];
    assert parts[1..] == ["hosts", "read"] && ["hosts", "read"][1..] == ["read"];
    assert Join(["hosts", "read"], ':') == "hosts" + [':'] + "read" == "hosts:read";
    assert Join(parts, ':') == "inventory" + [':'] + "hosts:read" == SOUGHT.text;
    SplitJoin(parts, ':');
  }

  /** The role's permission contains the one being looked for. */
  predicate Allows(role: Role, wanted: Permission) {
    && role.permission.PermissionText? && Parse(role.permission.text).Some?
    && Contains(Parse(role.permission.text).value, wanted)
  }

  predicate Matches(role: Role) {
    Allows(role, SOUGHT)
  }

  predicate ReadsHosts(app: string, resource: string, method_: string) {
    && (app == "inventory" || app == "*") && (resource == "hosts" || resource == "*")
    && (method_ == "read" || method_ == "write" || method_ == "*")
  }

  /** A role matches exactly when its permission is written for the inventory's hosts and for
      reading or writing, or with stars in their places. */
  lemma MatchesExactly(role: Role)
    ensures Matches(role) <==>
              && role.permission.PermissionText?
              && exists app, resource, method_ ::
                   Spelled(role.permission.text, app, resource, method_) && ReadsHosts(app, resource, method_)
  {
    if role.permission.PermissionText? {
      var text := role.permission.text;
      if Parse(text).Some? {
        var p := Parse(text).value;
        ParseExactly(text, p);
        WhatReadsHosts(p);
      }
      if app, resource, method_ :| Spelled(text, app, resource, method_) && ReadsHosts(app, resource, method_) {
        var p := Permission(text, app, resource, method_);
        ParseExactly(text, p);
        WhatReadsHosts(p);
      }
    }
  }

  lemma WhatReadsHosts(p: Permission)
    requires Genuine(p)
    ensures Contains(p, SOUGHT) <==> ReadsHosts(p.app, p.resource, p.method_)
  {
    if p.text == SOUGHT.text {
      SoughtIsGenuine();
      assert p == SOUGHT;
    }
  }

  predicate WellFormed(roles: seq<Role>) {
    forall role :: role in roles ==>
      && !role.permission.NotText?
      && (Matches(role) && role.resources.Definitions? ==>
            forall d :: d in role.resources.defs ==> !Raises(d))
  }

  /** The result of looking for host groups: an exception, access to all hosts, or a list. */
  datatype Found = Failed | Everything | Groups(groups: seq<Option<string>>)

  function DefinitionsGain(defs: seq<Definition>): Gain {
    if defs == [] then Adds([])
    else
      var before := DefinitionsGain(defs[..|defs| - 1]);
      if before.Breaks? then Breaks
      else
        var last := DefinitionGain(defs[|defs| - 1]);
        if last.Breaks? then Breaks else Adds(before.groups + last.groups)
  }

  function FindGroups(roles: seq<Role>): Found {
    if roles == [] then Groups([])
    else
      var before, role := FindGroups(roles[..|roles| - 1]), roles[|roles| - 1];
      if !before.Groups? then before
      else if role.permission.NotText? then Failed
      else if !Matches(role) || role.resources.NoDefinitions? then before
      else if role.resources.defs == [] then Everything
      else
        var gain := DefinitionsGain(role.resources.defs);
        if gain.Breaks? then Failed else Groups(before.groups + gain.groups)
  }

  /** The inner loop, over one role's definitions. */
  method ScanDefinitions(defs: seq<Definition>) returns (gain: Gain)
    ensures gain == DefinitionsGain(defs)
  {
    var groups := [];
    for j := 0 to |defs|
      invariant DefinitionsGain(defs[..j]) == Adds(groups)
    {
      assert defs[..j + 1][..j] == defs[..j];
      var one := DefinitionGain(defs[j]);
      if one.Breaks? {
        BreakLasts(defs, j + 1);
        return Breaks;
      }
      groups := groups + one.groups;
    }
    assert defs[..|defs|] == defs;
    return Adds(groups);
  }

  /** The loop over roles; an open role ends it. */
  method FindHostGroups(roles: seq<Role>) returns (found: Found)
    ensures found == FindGroups(roles)
  {
    var hostGroups := [];
    var i := 0;
    while i < |roles|
      invariant 0 <= i <= |roles|
      invariant FindGroups(roles[..i]) == Groups(hostGroups)
    {
      FoundStep(roles, i);
      var role := roles[i];
      i := i + 1;
      if role.permission.NotText? {
        ResultLasts(roles, i);
        return Failed;
      }
      if !Matches(role) || role.resources.NoDefinitions? {
        continue;
      }
      if role.resources.defs == [] {
        ResultLasts(roles, i);
        return Everything;
      }
      var gain := ScanDefinitions(role.resources.defs);
      if gain.Breaks? {
        ResultLasts(roles, i);
        return Failed;
      }
      hostGroups := hostGroups + gain.groups;
    }
    assert roles[..|roles|] == roles;
    return Groups(hostGroups);
  }

  lemma FoundStep(roles: seq<Role>, i: nat)
    requires i < |roles| && FindGroups(roles[..i]).Groups?
    ensures var before, role := FindGroups(roles[..i]), roles[i];
            FindGroups(roles[..i + 1]) ==
            if role.permission.NotText? then Failed
            else if !Matches(role) || role.resources.NoDefinitions? then before
            else if role.resources.defs == [] then Everything
            else
              var gain := DefinitionsGain(role.resources.defs);
              if gain.Breaks? then Failed else Groups(before.groups + gain.groups)
  {
    assert roles[..i + 1][..i] == roles[..i];
  }

  lemma {:induction false} BreakLasts(defs: seq<Definition>, i: nat)
    requires i <= |defs| && DefinitionsGain(defs[..i]).Breaks?
    ensures DefinitionsGain(defs).Breaks?
    decreases |defs|
  {
    if i == |defs| {
      assert defs[..i] == defs;
    } else {
      assert defs[..|defs| - 1][..i] == defs[..i];
      BreakLasts(defs[..|defs| - 1], i);
    }
  }

  lemma {:induction false} ResultLasts(roles: seq<Role>, i: nat)
    requires i <= |roles| && !FindGroups(roles[..i]).Groups?
    ensures FindGroups(roles) == FindGroups(roles[..i])
    decreases |roles|
  {
    if i == |roles| {
      assert roles[..i] == roles;
    } else {
      assert roles[..|roles| - 1][..i] == roles[..i];
      ResultLasts(roles[..|roles| - 1], i);
    }
  }

  /** The role scan: the first role that decides, either by a permission that contains the
      wanted one or by a permission that is not text, which raises; None is that exception. */
  method HasRbacPermission(roles: seq<Role>, wanted: Permission) returns (allowed: Option<bool>)
    ensures allowed == Some(true) <==> AllowsFirst(roles, wanted)
    ensures allowed == None <==>
              exists i :: && 0 <= i < |roles| && roles[i].permission.NotText?
                          && forall j :: 0 <= j < i ==> !Allows(roles[j], wanted)
    ensures allowed == Some(false) <==>
              forall i :: 0 <= i < |roles| ==> !roles[i].permission.NotText? && !Allows(roles[i], wanted)
  {
    for i := 0 to |roles|
      invariant forall j :: 0 <= j < i ==> !Allows(roles[j], wanted) && !roles[j].permission.NotText?
    {
      if roles[i].permission.NotText? {
        return None;
      }
      if Allows(roles[i], wanted) {
        return Some(true);
      }
    }
    return Some(false);
  }

  /** Some role allows and no permission before it is not text. */
  ghost predicate AllowsFirst(roles: seq<Role>, wanted: Permission) {
    exists i :: && 0 <= i < |roles| && Allows(roles[i], wanted)
                && forall j :: 0 <= j < i ==> !roles[j].permission.NotText?
  }

  lemma ParsedIsGenuine(text: string)
    requires Parse(text).Some?
    ensures Genuine(Parse(text).value)
  {
  }

  /** A role whose permission contains that of a matching role matches too. */
  lemma BroaderRoleMatches(role: Role, broader: Role)
    requires Matches(role) && broader.permission.PermissionText? && Parse(broader.permission.text).Some?
    requires Contains(Parse(broader.permission.text).value, Parse(role.permission.text).value)
    ensures Matches(broader)
  {
    ParsedIsGenuine(role.permission.text);
    ParsedIsGenuine(broader.permission.text);
    SoughtIsGenuine();
    ContainmentIsPartialOrder(Parse(broader.permission.text).value, Parse(role.permission.text).value, SOUGHT);
  }

  // ---------- what the roles grant ----------

  /** One matching role without definitions opens every host. */
  predicate Open(role: Role) {
    Matches(role) && role.resources == Definitions([])
  }

  ghost predicate GrantsTo(role: Role, group: Option<string>) {
    && Matches(role) && role.resources.Definitions?
    && exists d :: d in role.resources.defs && Lists(d, group)
  }

  ghost predicate AnyOpen(roles: seq<Role>) {
    exists role :: role in roles && Open(role)
  }

  ghost predicate Granted(roles: seq<Role>, group: Option<string>) {
    exists role :: role in roles && GrantsTo(role, group)
  }

  /** A role the scan fails on when it reaches it. */
  ghost predicate Bad(role: Role) {
    role.permission.NotText?
    || (&& Matches(role) && role.resources.Definitions?
        && exists d :: d in role.resources.defs && Raises(d))
  }

  lemma {:induction false} DefinitionsGainExact(defs: seq<Definition>)
    ensures DefinitionsGain(defs).Breaks? <==> exists d :: d in defs && Raises(d)
    ensures DefinitionsGain(defs).Adds? ==>
              forall g :: g in DefinitionsGain(defs).groups <==> exists d :: d in defs && Lists(d, g)
  {
    if defs != [] {
      var before, last := defs[..|defs| - 1], defs[|defs| - 1];
      DefinitionExactly(last);
      assert defs == before + [last];
      DefinitionsGainExact(before);
      assert forall d :: d in defs <==> d in before || d == last;
    }
  }

  lemma OneRole(role: Role)
    ensures !(Bad(role) && Open(role))
    ensures Matches(role) && role.resources.Definitions? && !role.permission.NotText? ==>
              (Bad(role) <==> DefinitionsGain(role.resources.defs).Breaks?)
  {
    if role.resources.Definitions? {
      DefinitionsGainExact(role.resources.defs);
    }
  }

  /** What one role does to the scan. */
  datatype Step = Collects | Opens | Stops

  ghost function StepOf(role: Role): Step {
    if Bad(role) then Stops else if Open(role) then Opens else Collects
  }

  ghost function Steps(roles: seq<Role>): seq<Step> {
    seq(|roles|, i requires 0 <= i < |roles| => StepOf(roles[i]))
  }

  function StepOfFound(found: Found): Step {
    match found case Failed => Stops case Everything => Opens case Groups(_) => Collects
  }

  lemma ScanStep(before: Found, role: Role, after: Found)
    requires before.Groups?
    requires after == if role.permission.NotText? then Failed
                      else if !Matches(role) || role.resources.NoDefinitions? then before
                      else if role.resources.defs == [] then Everything
                      else var gain := DefinitionsGain(role.resources.defs);
                           if gain.Breaks? then Failed else Groups(before.groups + gain.groups)
    ensures StepOfFound(after) == StepOf(role)
  {
    OneRole(role);
  }

  lemma StepsGrow(roles: seq<Role>)
    requires roles != []
    ensures var before := Foremost(Steps(roles[..|roles| - 1]), Collects);
            Foremost(Steps(roles), Collects) == if before.Collects? then StepOf(roles[|roles| - 1]) else before
  {
    StepsSplit(roles);
    ForemostStep(Steps(roles[..|roles| - 1]), StepOf(roles[|roles| - 1]), Collects);
  }

  lemma StepsSplit(roles: seq<Role>)
    requires roles != []
    ensures Steps(roles) == Steps(roles[..|roles| - 1]) + [StepOf(roles[|roles| - 1])]
  {
    assert forall i :: 0 <= i < |roles| - 1 ==> roles[..|roles| - 1][i] == roles[i];
  }

  /** The first role that does not just collect decides. */
  lemma {:induction false} ForemostDecides(roles: seq<Role>)
    ensures StepOfFound(FindGroups(roles)) == Foremost(Steps(roles), Collects)
  {
    if roles != [] {
      var before, last := roles[..|roles| - 1], roles[|roles| - 1];
      ForemostDecides(before);
      StepsGrow(roles);
      if FindGroups(before).Groups? {
        ScanStep(FindGroups(before), last, FindGroups(roles));
      }
    }
  }

  /** Some role is bad and none before it is open, and the other way round. */
  ghost predicate BadFirst(roles: seq<Role>) {
    exists i :: 0 <= i < |roles| && Bad(roles[i]) && forall j :: 0 <= j < i ==> !Open(roles[j])
  }

  ghost predicate OpenFirst(roles: seq<Role>) {
    exists i :: 0 <= i < |roles| && Open(roles[i]) && forall j :: 0 <= j < i ==> !Bad(roles[j])
  }

  ghost predicate AnyBad(roles: seq<Role>) {
    exists role :: role in roles && Bad(role)
  }

  /** The scan fails exactly when a bad role has no open role before it, gives everything exactly
      when an open role has no bad one before it, and collects groups exactly when no role is
      bad or open. */
  lemma OutcomeExactly(roles: seq<Role>)
    ensures FindGroups(roles).Failed? <==> BadFirst(roles)
    ensures FindGroups(roles).Everything? <==> OpenFirst(roles)
    ensures FindGroups(roles).Groups? <==> !AnyBad(roles) && !AnyOpen(roles)
  {
    var steps := Steps(roles);
    ForemostDecides(roles);
    ForemostExactly(steps, Collects);
    StepsMean(roles);
    BadOrOpenFirst(roles);
  }

  lemma StepsMean(roles: seq<Role>)
    ensures forall i :: 0 <= i < |roles| ==>
              && (Steps(roles)[i].Stops? <==> Bad(roles[i])) && (Steps(roles)[i].Opens? <==> Open(roles[i]))
  {
    forall i | 0 <= i < |roles| ensures Open(roles[i]) ==> !Bad(roles[i]) {
      OneRole(roles[i]);
    }
  }

  lemma BadOrOpenFirst(roles: seq<Role>)
    ensures BadFirst(roles) ==> AnyBad(roles)
    ensures OpenFirst(roles) ==> AnyOpen(roles)
    ensures !(BadFirst(roles) && OpenFirst(roles))
  {
    StepsMean(roles);
    assert forall i :: 0 <= i < |roles| ==> !(Steps(roles)[i].Stops? && Steps(roles)[i].Opens?);
  }

  lemma RoleGrants(role: Role)
    requires Matches(role) && role.resources.Definitions? && DefinitionsGain(role.resources.defs).Adds?
    ensures forall g :: GrantsTo(role, g) <==> g in DefinitionsGain(role.resources.defs).groups
  {
    DefinitionsGainExact(role.resources.defs);
  }

  lemma GrantedStep(roles: seq<Role>)
    requires roles != []
    ensures forall g :: Granted(roles, g) <==> Granted(roles[..|roles| - 1], g) || GrantsTo(roles[|roles| - 1], g)
  {
    var before, last := roles[..|roles| - 1], roles[|roles| - 1];
    assert roles == before + [last];
    assert forall role :: role in roles <==> role in before || role == last;
  }

  /** The groups collected are those of the matching roles. */
  lemma {:induction false} GroupsExactly(roles: seq<Role>)
    requires FindGroups(roles).Groups?
    ensures forall g :: g in FindGroups(roles).groups <==> Granted(roles, g)
  {
    if roles != [] {
      var before, last := roles[..|roles| - 1], roles[|roles| - 1];
      GroupsExactly(before);
      GrantedStep(roles);
      if Matches(last) && last.resources.Definitions? {
        RoleGrants(last);
      }
    }
  }

  lemma WellFormedNotBad(roles: seq<Role>)
    requires WellFormed(roles)
    ensures !AnyBad(roles) && (OpenFirst(roles) <==> AnyOpen(roles))
  {
    forall role | role in roles ensures !Bad(role) {
    }
    if AnyOpen(roles) {
      var role :| role in roles && Open(role);
      var i :| 0 <= i < |roles| && roles[i] == role;
      assert forall j :: 0 <= j < i ==> roles[j] in roles;
    }
    BadOrOpenFirst(roles);
  }

  /** For well-formed roles the result is everything exactly when some matching role is open,
      wherever it stands; otherwise the groups of all matching roles. */
  lemma FindGroupsExact(roles: seq<Role>)
    requires WellFormed(roles)
    ensures AnyOpen(roles) ==> FindGroups(roles) == Everything
    ensures !AnyOpen(roles) ==>
              && FindGroups(roles).Groups?
              && forall g :: g in FindGroups(roles).groups <==> Granted(roles, g)
  {
    WellFormedNotBad(roles);
    OutcomeExactly(roles);
    if !AnyOpen(roles) {
      GroupsExactly(roles);
    }
  }

  // ---------- when the order of roles matters ----------

  /** The same failure, the same full access, or the same groups. */
  ghost predicate SameOutcome(a: Found, b: Found) {
    && (a.Failed? <==> b.Failed?) && (a.Everything? <==> b.Everything?)
    && (a.Groups? && b.Groups? ==> forall g :: g in a.groups <==> g in b.groups)
  }

  ghost predicate Reordering(a: seq<Role>, b: seq<Role>) {
    multiset(a) == multiset(b)
  }

  lemma ReorderingMembers(a: seq<Role>, b: seq<Role>)
    requires Reordering(a, b)
    ensures forall role :: role in a <==> role in b
    ensures (AnyBad(a) <==> AnyBad(b)) && (AnyOpen(a) <==> AnyOpen(b))
    ensures forall g :: Granted(a, g) <==> Granted(b, g)
  {
    assert forall role :: role in a <==> role in multiset(a);
    assert forall role :: role in b <==> role in multiset(b);
  }

  /** Unless a list holds both an open role and a bad one, its order is immaterial. */
  lemma OrderImmaterial(a: seq<Role>, b: seq<Role>)
    requires Reordering(a, b) && !(AnyOpen(a) && AnyBad(a))
    ensures SameOutcome(FindGroups(a), FindGroups(b))
  {
    ReorderingMembers(a, b);
    OneKind(a);
    OneKind(b);
    OutcomeExactly(a);
    OutcomeExactly(b);
    if FindGroups(a).Groups? {
      GroupsExactly(a);
      GroupsExactly(b);
    }
  }

  lemma OneKind(roles: seq<Role>)
    requires !(AnyOpen(roles) && AnyBad(roles))
    ensures (BadFirst(roles) <==> AnyBad(roles)) && (OpenFirst(roles) <==> AnyOpen(roles))
  {
    BadOrOpenFirst(roles);
    if AnyBad(roles) {
      var role :| role in roles && Bad(role);
      var i :| 0 <= i < |roles| && roles[i] == role;
      assert forall j :: 0 <= j < i ==> roles[j] in roles;
    }
    if AnyOpen(roles) {
      var role :| role in roles && Open(role);
      var i :| 0 <= i < |roles| && roles[i] == role;
      assert forall j :: 0 <= j < i ==> roles[j] in roles;
    }
  }

  /** The first role decides when it is open or bad. */
  lemma FirstDecides(roles: seq<Role>)
    requires roles != []
    ensures Open(roles[0]) ==> FindGroups(roles).Everything?
    ensures Bad(roles[0]) ==> FindGroups(roles).Failed?
  {
    OutcomeExactly(roles);
    OneRole(roles[0]);
  }

  /** Move a role to the front. */
  lemma ToFront(roles: seq<Role>, role: Role) returns (moved: seq<Role>)
    requires role in roles
    ensures Reordering(roles, moved) && moved != [] && moved[0] == role
  {
    var i :| 0 <= i < |roles| && roles[i] == role;
    moved := [role] + (roles[..i] + roles[i + 1..]);
    assert roles == roles[..i] + [role] + roles[i + 1..];
  }

  /** A list with an open and a bad role has a reordering that changes what the scan comes to. */
  lemma OrderMatters(a: seq<Role>) returns (b: seq<Role>)
    requires AnyOpen(a) && AnyBad(a)
    ensures Reordering(a, b) && !SameOutcome(FindGroups(a), FindGroups(b))
  {
    var open :| open in a && Open(open);
    var bad :| bad in a && Bad(bad);
    b := ToFront(a, open);
    FirstDecides(b);
    if FindGroups(a).Everything? {
      b := ToFront(a, bad);
      FirstDecides(b);
    }
  }

  /** Some reordering of a list of roles changes what the scan comes to, if and only if the list
      holds both an open role and a bad one. */
  lemma OrderMattersExactly(a: seq<Role>)
    ensures (exists b :: Reordering(a, b) && !SameOutcome(FindGroups(a), FindGroups(b))) <==> AnyOpen(a) && AnyBad(a)
  {
    if AnyOpen(a) && AnyBad(a) {
      var b := OrderMatters(a);
    } else {
      forall b | Reordering(a, b) ensures SameOutcome(FindGroups(a), FindGroups(b)) {
        OrderImmaterial(a, b);
      }
    }
  }

  // ---------- the hosts a user sees ----------

  /** The host groups left on the request: none when access is unrestricted. */
  function RequestGroups(found: Found): seq<Option<string>> {
    if found.Groups? then found.groups else []
  }

  /** The host group filter, for the roles and the group names asked for, passes a row. */
  ghost predicate Sees(db: Db, roles: seq<Role>, names: seq<string>, key: InventoryKey) {
    Passes(db, OnInventory(key), HostGroupQ(RequestGroups(FindGroups(roles)), names, None))
  }

  predicate NameFits(row: InventoryRow, name: string) {
    if name == "" then row.ungrouped else row.workspaceName == Some(name)
  }

  lemma {:induction false} GroupsMeaning(db: Db, key: InventoryKey, groups: seq<Option<string>>)
    requires key in db.inventory && groups != []
    ensures Clause(db, OnInventory(key), GroupsQ(groups, None)) == Some(db.inventory[key].workspaceId in groups)
    ensures !GroupsQ(groups, None).Empty?
  {
    var before, last := groups[..|groups| - 1], groups[|groups| - 1];
    assert groups == before + [last];
    GroupAtRow(db, key, last);
    if before != [] {
      GroupsMeaning(db, key, before);
    } else {
      assert groups == [last];
    }
  }

  lemma GroupAtRow(db: Db, key: InventoryKey, group: Option<string>)
    requires key in db.inventory
    ensures Clause(db, OnInventory(key), GroupLookup(group, None)) == Some(db.inventory[key].workspaceId == group)
  {
    assert ["workspace_id", "isnull"][0] == "workspace_id" && ["host", "branch_id"][0] == "host";
    assert ["workspace_id", "isnull"] != ["workspace_id"] && ["workspace_id"] != ["org_id"];
  }

  lemma NameAtRow(db: Db, key: InventoryKey, name: string)
    requires key in db.inventory
    ensures Clause(db, OnInventory(key), GroupNameLookup(name, None)) == Some(NameFits(db.inventory[key], name))
  {
    var ungrouped, named := ["workspace_ungrouped"], ["workspace_name"];
    var branch, id := ["host", "branch_id"], ["workspace_id", "isnull"];
    assert ungrouped[0] != named[0] && ungrouped[0] != "org_id" && named[0] != "org_id";
    assert ungrouped[0] != branch[0] && named[0] != branch[0];
    assert ungrouped[0] != id[0] && named[0] != id[0];
    assert ungrouped[0] != ["workspace_id"][0] && named[0] != ["workspace_id"][0];
  }

  lemma {:induction false} NamesMeaning(db: Db, key: InventoryKey, names: seq<string>)
    requires key in db.inventory && names != []
    ensures Clause(db, OnInventory(key), GroupNamesQ(names, None)) ==
            Some(exists name :: name in names && NameFits(db.inventory[key], name))
    ensures !GroupNamesQ(names, None).Empty?
  {
    var before, last := names[..|names| - 1], names[|names| - 1];
    NameAtRow(db, key, last);
    NamesStep(db.inventory[key], names);
    if before != [] {
      NamesMeaning(db, key, before);
    }
  }

  lemma NamesStep(row: InventoryRow, names: seq<string>)
    requires names != []
    ensures (exists name :: name in names && NameFits(row, name)) <==>
              (exists name :: name in names[..|names| - 1] && NameFits(row, name)) || NameFits(row, names[|names| - 1])
  {
    assert names == names[..|names| - 1] + [names[|names| - 1]];
  }

  /** The workspace is granted, or access is unrestricted. */
  ghost predicate Entitled(roles: seq<Role>, workspace: Option<string>) {
    AnyOpen(roles) || (forall g :: !Granted(roles, g)) || Granted(roles, workspace)
  }

  /** For well-formed roles a host is seen exactly when its workspace is granted by some
      matching role, or some matching role is open, or no group was granted at all; and, when
      group names are asked for, its workspace has one of them. */
  lemma VisibleExactly(db: Db, roles: seq<Role>, names: seq<string>, key: InventoryKey)
    requires WellFormed(roles) && key in db.inventory
    ensures Sees(db, roles, names, key) <==>
              && Entitled(roles, db.inventory[key].workspaceId)
              && (names == [] || exists name :: name in names && NameFits(db.inventory[key], name))
  {
    FindGroupsExact(roles);
    var groups := RequestGroups(FindGroups(roles));
    AndMeansBoth(db, OnInventory(key), GroupsQ(groups, None), GroupNamesQ(names, None));
    if groups != [] {
      GroupsMeaning(db, key, groups);
      assert groups[0] in groups;
      assert !AnyOpen(roles) && Granted(roles, groups[0]);
    } else {
      assert AnyOpen(roles) || forall g :: !Granted(roles, g);
    }
    if names != [] {
      NamesMeaning(db, key, names);
    }
  }

  /** Roles that differ only in the order and repetition of their definitions. */
  predicate Alike(a: Role, b: Role) {
    && a.permission == b.permission
    && (a.resources.Definitions? <==> b.resources.Definitions?)
    && (a.resources.Definitions? ==>
          && (a.resources.defs == [] <==> b.resources.defs == [])
          && (forall d :: d in a.resources.defs ==> d in b.resources.defs)
          && (forall d :: d in b.resources.defs ==> d in a.resources.defs))
  }

  /** Every role of the one list has a counterpart in the other. */
  ghost predicate Covers(a: seq<Role>, b: seq<Role>) {
    forall role :: role in a ==> exists other :: other in b && Alike(role, other)
  }

  lemma AlikeGrants(a: Role, b: Role)
    requires Alike(a, b)
    ensures Open(a) ==> Open(b)
    ensures forall g :: GrantsTo(a, g) ==> GrantsTo(b, g)
  {
  }

  lemma CoveredGrants(a: seq<Role>, b: seq<Role>)
    requires Covers(a, b)
    ensures AnyOpen(a) ==> AnyOpen(b)
    ensures forall g :: Granted(a, g) ==> Granted(b, g)
  {
    forall role | role in a
      ensures Open(role) ==> AnyOpen(b)
      ensures forall g :: GrantsTo(role, g) ==> Granted(b, g)
    {
      var other :| other in b && Alike(role, other);
      AlikeGrants(role, other);
    }
  }

  /** What a user sees does not depend on the order of roles or of their definitions. */
  lemma OrderIrrelevant(db: Db, a: seq<Role>, b: seq<Role>, names: seq<string>, key: InventoryKey)
    requires WellFormed(a) && WellFormed(b) && key in db.inventory
    requires Covers(a, b) && Covers(b, a)
    ensures Sees(db, a, names, key) <==> Sees(db, b, names, key)
  {
    VisibleExactly(db, a, names, key);
    VisibleExactly(db, b, names, key);
    EntitledAlike(a, b, db.inventory[key].workspaceId);
  }

  lemma EntitledAlike(a: seq<Role>, b: seq<Role>, workspace: Option<string>)
    requires Covers(a, b) && Covers(b, a)
    ensures Entitled(a, workspace) <==> Entitled(b, workspace)
  {
    CoveredGrants(a, b);
    CoveredGrants(b, a);
  }

  /** Asking for group names only ever narrows what is seen. */
  lemma NamesOnlyNarrow(db: Db, roles: seq<Role>, names: seq<string>, key: InventoryKey)
    requires WellFormed(roles) && key in db.inventory && Sees(db, roles, names, key)
    ensures Sees(db, roles, [], key)
  {
    VisibleExactly(db, roles, names, key);
    VisibleExactly(db, roles, [], key);
  }

  /** A bad role is never looked at behind an open one and fatal in front of it, whatever
      follows them. */
  lemma MalformedRoleMakesOrderMatter(open: Role, bad: Role, rest: seq<Role>)
    requires Open(open) && Bad(bad)
    ensures FindGroups([open, bad] + rest).Everything? && FindGroups([bad, open] + rest).Failed?
  {
    FirstDecides([open, bad] + rest);
    FirstDecides([bad, open] + rest);
  }

  /** Matching roles whose only definition is a list of one group: the hosts of that group are
      seen, and no others. */
  lemma OneGroupIsSeen(db: Db, roles: seq<Role>, group: Option<string>, key: InventoryKey)
    requires roles != [] && forall role :: role in roles ==> ListsOnly(role, group)
    requires key in db.inventory
    ensures Sees(db, roles, [], key) <==> db.inventory[key].workspaceId == group
  {
    forall role | role in roles
      ensures !Open(role) && !Bad(role) && forall g :: GrantsTo(role, g) <==> g == group
    {
      ListedGrants(role, group);
    }
    assert roles[0] in roles;
    assert Granted(roles, group);
    VisibleExactly(db, roles, [], key);
  }

  lemma ListedGrants(role: Role, group: Option<string>)
    requires ListsOnly(role, group)
    ensures !Open(role) && !Bad(role) && forall g :: GrantsTo(role, g) <==> g == group
  {
    var d := role.resources.defs[0];
    assert d in role.resources.defs && forall g :: Lists(d, g) <==> g == group;
  }

  predicate ListsOnly(role: Role, group: Option<string>) {
    Matches(role) && role.resources == Definitions([AttributeFilter(Some("group.id"), GroupList([group]))])
  }
}
