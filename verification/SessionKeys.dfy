/** Session keys, the scopes derived from them, and the order in which scopes are searched. */
module SessionKeys {
  import opened Prelude
  import Text
  import Sorting

  // ---- session keys ----

  datatype SessionKey = SessionKey(channelType: string, channelUserId: string, teamId: Option<string>)

  /** `channel:user` or `channel:user:team`; anything with fewer or more colons is an error. */
  function Parse(s: string): Result<SessionKey, string> {
    var parts := Text.Split(s, ':');
    if |parts| == 2 then Ok(SessionKey(parts[0], parts[1], None))
    else if |parts| == 3 then Ok(SessionKey(parts[0], parts[1], Some(parts[2])))
    else Err("Invalid session key format: '" + s + "'. Expected: channel_type:user_id[:team_id]")
  }

  function UserKey(k: SessionKey): string {
    k.channelType + ":" + k.channelUserId
  }

  function AsStr(k: SessionKey): string {
    if k.teamId.Some? then k.channelType + ":" + k.channelUserId + ":" + k.teamId.value else UserKey(k)
  }

  function TenantKey(k: SessionKey): Option<string> {
    if k.teamId.Some? then Some("tenant:" + k.channelType + ":" + k.teamId.value) else None
  }

  predicate ColonFree(k: SessionKey) {
    ':' !in k.channelType && ':' !in k.channelUserId && (k.teamId.Some? ==> ':' !in k.teamId.value)
  }

  function Fields(k: SessionKey): seq<string> {
    [k.channelType, k.channelUserId] + if k.teamId.Some? then [k.teamId.value] else []
  }

  lemma AsStrJoinsFields(k: SessionKey)
    ensures AsStr(k) == Text.Join(Fields(k), ':')
  {
    if k.teamId.Some? {
      var team := [k.teamId.value];
      Text.JoinCons(k.channelUserId, team, ':');
      Text.JoinCons(k.channelType, [k.channelUserId] + team, ':');
      assert Fields(k) == [k.channelType] + ([k.channelUserId] + team);
      assert AsStr(k) == k.channelType + [':'] + (k.channelUserId + [':'] + k.teamId.value);
    } else {
      Text.JoinCons(k.channelType, [k.channelUserId], ':');
      assert Fields(k) == [k.channelType] + [k.channelUserId];
    }
  }

  /** The text of such a key. */
  function Spelling(channel: string, user: string, team: Option<string>): string {
    channel + ":" + user + if team.Some? then ":" + team.value else ""
  }

  lemma SpellingIsAsStr(k: SessionKey)
    ensures AsStr(k) == Spelling(k.channelType, k.channelUserId, k.teamId)
  {
  }

  /** Printing an accepted key gives back the text it was parsed from, and its fields hold no colon. */
  lemma PrintUndoesParse(s: string)
    ensures Parse(s).Ok? ==> AsStr(Parse(s).value) == s && ColonFree(Parse(s).value)
  {
    var parts := Text.Split(s, ':');
    if Parse(s).Ok? {
      Text.JoinUndoesSplit(s, ':');
      var k := Parse(s).value;
      AsStrJoinsFields(k);
      assert |Fields(k)| == |parts|;
      assert Fields(k) == parts;
    }
  }

  /** Parsing a printed key gives it back exactly if its fields hold no colon. */
  lemma ParseUndoesPrintIff(k: SessionKey)
    ensures Parse(AsStr(k)) == Ok(k) <==> ColonFree(k)
  {
    PrintUndoesParse(AsStr(k));
    if ColonFree(k) {
      AsStrJoinsFields(k);
      Text.SplitUndoesJoin(Fields(k), ':');
    }
  }

  /** Two colon-free keys with the same user text are of the same channel and user. */
  lemma UserKeyInjective(k: SessionKey, l: SessionKey)
    requires ColonFree(k) && ColonFree(l)
    ensures UserKey(k) == UserKey(l) <==> k.channelType == l.channelType && k.channelUserId == l.channelUserId
  {
    ParseUndoesPrintIff(SessionKey(k.channelType, k.channelUserId, None));
    ParseUndoesPrintIff(SessionKey(l.channelType, l.channelUserId, None));
  }

  /** A text is accepted exactly if it spells channel, user and perhaps team, in this order and none with a colon. */
  lemma ParseIff(s: string, channel: string, user: string, team: Option<string>)
    ensures Parse(s) == Ok(SessionKey(channel, user, team))
       <==> s == Spelling(channel, user, team)
            && ':' !in channel && ':' !in user && (team.Some? ==> ':' !in team.value)
  {
    var k := SessionKey(channel, user, team);
    SpellingIsAsStr(k);
    PrintUndoesParse(s);
    ParseUndoesPrintIff(k);
  }

  // ---- layers and their ranks ----

  function ScopeLayer(scope: string): string {
    if scope == "global" then "global"
    else if Text.StartsWith(scope, "session:") then "session"
    else if Text.StartsWith(scope, "user:") then "user"
    else if Text.StartsWith(scope, "role:") then "role"
    else if Text.StartsWith(scope, "department:") then "department"
    else if Text.StartsWith(scope, "enterprise:") then "enterprise"
    else if Text.StartsWith(scope, "tenant:") then "tenant"
    else "scope"
  }

  /** The smaller the rank, the higher the priority. */
  function LayerRank(layer: string): nat {
    if layer == "session" then 0
    else if layer == "user" then 1
    else if layer == "role" then 2
    else if layer == "department" then 3
    else if layer == "enterprise" then 4
    else if layer == "tenant" then 5
    else if layer == "global" then 6
    else 7
  }

  function ScopeRank(scope: string): nat {
    LayerRank(ScopeLayer(scope))
  }

  /** By rank, then alphabetically. */
  predicate ScopeLeq(a: string, b: string) {
    ScopeRank(a) < ScopeRank(b) || (ScopeRank(a) == ScopeRank(b) && Text.Leq(a, b))
  }

  lemma TextOrder()
    ensures Sorting.IsPreorder(Text.Leq)
    ensures forall a, b :: Text.Leq(a, b) && Text.Leq(b, a) ==> a == b
  {
    forall a, b ensures Text.Leq(a, b) || Text.Leq(b, a) {
      Text.LeqTotal(a, b);
    }
    forall a, b | Text.Leq(a, b) && Text.Leq(b, a) ensures a == b {
      Text.LeqAntisymmetric(a, b);
    }
    forall a, b, c | Text.Leq(a, b) && Text.Leq(b, c) ensures Text.Leq(a, c) {
      Text.LeqTransitive(a, b, c);
    }
  }

  lemma ScopeOrder()
    ensures Sorting.IsPreorder(ScopeLeq)
    ensures forall a, b :: ScopeLeq(a, b) && ScopeLeq(b, a) ==> a == b
  {
    TextOrder();
  }

  // ---- access contexts ----

  datatype AccessContext = AccessContext(tenant: Option<string>, enterprise: Option<string>,
                                         department: Option<string>, roles: seq<string>)

  /** Trimmed; blank means absent. */
  function NormalizeOptional(scope: Option<string>): Option<string> {
    if scope.Some? && Text.Trim(scope.value) != "" then Some(Text.Trim(scope.value)) else None
  }

  /** The role trimmed, or nothing if it is blank. */
  function TrimmedRole(role: string): seq<string> {
    if Text.Trim(role) != "" then [Text.Trim(role)] else []
  }

  /** The trimmed roles that are not blank, in the given order. */
  function TrimmedRoles(roles: seq<string>): seq<string> {
    if roles == [] then [] else TrimmedRole(roles[0]) + TrimmedRoles(roles[1..])
  }

  function NormalizeRoles(roles: seq<string>): seq<string> {
    Sorting.Dedup(Sorting.SortBy(TrimmedRoles(roles), Text.Leq))
  }

  lemma NextRole(collected: seq<string>, roles: seq<string>, i: nat)
    requires i < |roles|
    ensures collected + TrimmedRoles(roles[i..])
         == collected + TrimmedRole(roles[i]) + TrimmedRoles(roles[i + 1..])
  {
    assert roles[i..][1..] == roles[i + 1..];
  }

  /** `normalize_role_scopes`: collect, then sort and remove duplicates. */
  method NormalizeRoleScopes(roles: seq<string>) returns (normalized: seq<string>)
    ensures normalized == NormalizeRoles(roles)
  {
    normalized := [];
    assert roles[0..] == roles;
    for i := 0 to |roles|
      invariant normalized + TrimmedRoles(roles[i..]) == TrimmedRoles(roles)
    {
      NextRole(normalized, roles, i);
      normalized := normalized + TrimmedRole(roles[i]);
    }
    assert normalized == TrimmedRoles(roles);
    normalized := Sorting.SortBy(normalized, Text.Leq);
    normalized := Sorting.Dedup(normalized);
  }

  function Normalized(c: AccessContext): AccessContext {
    AccessContext(NormalizeOptional(c.tenant), NormalizeOptional(c.enterprise),
                  NormalizeOptional(c.department), NormalizeRoles(c.roles))
  }

  ghost predicate NamesRole(roles: seq<string>, role: string) {
    role != "" && exists i :: 0 <= i < |roles| && Text.Trim(roles[i]) == role
  }

  lemma {:induction false} TrimmedRolesAreTheNamed(roles: seq<string>, role: string)
    ensures role in TrimmedRoles(roles) <==> NamesRole(roles, role)
  {
    if roles != [] {
      TrimmedRolesAreTheNamed(roles[1..], role);
      if NamesRole(roles, role) && Text.Trim(roles[0]) != role {
        var i :| 0 <= i < |roles| && Text.Trim(roles[i]) == role;
        assert Text.Trim(roles[1..][i - 1]) == role;
      }
      if NamesRole(roles[1..], role) {
        var i :| 0 <= i < |roles[1..]| && Text.Trim(roles[1..][i]) == role;
        assert Text.Trim(roles[i + 1]) == role;
      }
    }
  }

  /** The normalised roles are strictly increasing and name exactly the given non-blank roles. */
  lemma NormalizedRolesAreSorted(roles: seq<string>)
    ensures Sorting.StrictlySorted(NormalizeRoles(roles), Text.Leq)
    ensures forall role :: role in NormalizeRoles(roles) <==> NamesRole(roles, role)
  {
    var trimmed := TrimmedRoles(roles);
    var sorted := Sorting.SortBy(trimmed, Text.Leq);
    TextOrder();
    Sorting.SortBySorts(trimmed, Text.Leq);
    Sorting.SortByPermutes(trimmed, Text.Leq);
    Sorting.DedupKeepsElements(sorted);
    Sorting.DedupOfSorted(sorted, Text.Leq);
    forall role ensures role in NormalizeRoles(roles) <==> NamesRole(roles, role) {
      TrimmedRolesAreTheNamed(roles, role);
    }
  }

  /** There is no other such list: normalising is blind to the order, repetition and
      padding of the roles given, and to nothing else. */
  lemma NormalizedRolesEqualIff(roles: seq<string>, others: seq<string>)
    ensures NormalizeRoles(roles) == NormalizeRoles(others)
       <==> forall role :: NamesRole(roles, role) <==> NamesRole(others, role)
  {
    NormalizedRolesAreSorted(roles);
    NormalizedRolesAreSorted(others);
    if forall role :: NamesRole(roles, role) <==> NamesRole(others, role) {
      Sorting.StrictlySortedIsUnique(NormalizeRoles(roles), NormalizeRoles(others), Text.Leq);
    }
  }

  // ---- namespaces ----

  datatype SessionNamespace = SessionNamespace(global: string, tenant: Option<string>, enterprise: Option<string>,
                                               department: Option<string>, roles: seq<string>,
                                               user: string, session: string)

  function FromSessionKey(k: SessionKey): SessionNamespace {
    SessionNamespace("global", TenantKey(k), None, None, [], "user:" + UserKey(k), "session:" + AsStr(k))
  }

  /** The key's own tenant wins over the context's; the rest comes from the context. */
  function WithAccessContext(ns: SessionNamespace, context: Option<AccessContext>): SessionNamespace {
    if context.None? then ns
    else
      var c := Normalized(context.value);
      ns.(tenant := if ns.tenant.None? then c.tenant else ns.tenant,
          enterprise := c.enterprise, department := c.department, roles := c.roles)
  }

  function Listed(scope: Option<string>): seq<string> {
    if scope.Some? then [scope.value] else []
  }

  /** From the most private scope to the most shared. */
  function VisibilityChain(ns: SessionNamespace): seq<string> {
    [ns.user] + ns.roles + Listed(ns.department) + Listed(ns.enterprise) + Listed(ns.tenant) + [ns.global]
  }

  /** The namespace of a session, with an access context if there is one. */
  function NamespaceFor(k: SessionKey, context: Option<AccessContext>): SessionNamespace {
    WithAccessContext(FromSessionKey(k), context)
  }

  /** The scope given, trimmed and not blank. */
  ghost predicate Names(given: Option<string>, scope: string) {
    given.Some? && scope == Text.Trim(given.value) && scope != ""
  }

  /** The tenant's scope: the channel's team if the key has one, else what the context names. */
  ghost predicate NamesTenant(k: SessionKey, context: Option<AccessContext>, scope: string) {
    if k.teamId.Some? then scope == "tenant:" + k.channelType + ":" + k.teamId.value
    else context.Some? && Names(context.value.tenant, scope)
  }

  /** The chain of a session holds its user's scope, the scopes its context names, its tenant's, `global`,
      and no others. */
  lemma ChainMembers(k: SessionKey, context: Option<AccessContext>, scope: string)
    ensures scope in VisibilityChain(NamespaceFor(k, context))
       <==> || scope == "user:" + k.channelType + ":" + k.channelUserId
            || (context.Some? && NamesRole(context.value.roles, scope))
            || (context.Some? && Names(context.value.department, scope))
            || (context.Some? && Names(context.value.enterprise, scope))
            || NamesTenant(k, context, scope)
            || scope == "global"
  {
    var ns := NamespaceFor(k, context);
    assert scope in Listed(ns.tenant) <==> NamesTenant(k, context, scope);
    assert "user:" + (k.channelType + ":" + k.channelUserId) == "user:" + k.channelType + ":" + k.channelUserId;
    if context.Some? {
      NormalizedRolesAreSorted(context.value.roles);
      assert scope in Listed(ns.department) <==> Names(context.value.department, scope);
      assert scope in Listed(ns.enterprise) <==> Names(context.value.enterprise, scope);
    }
  }

  /** From the most shared scope to the most private. */
  function MemoryContextChain(ns: SessionNamespace): seq<string> {
    [ns.global] + Listed(ns.tenant) + Listed(ns.enterprise) + Listed(ns.department) + ns.roles
    + [ns.user] + [ns.session]
  }

  /** `visibility_chain`, pushing scope by scope. */
  method BuildVisibilityChain(ns: SessionNamespace) returns (scopes: seq<string>)
    ensures scopes == VisibilityChain(ns)
  {
    scopes := [ns.user];
    scopes := scopes + ns.roles;
    if ns.department.Some? { scopes := scopes + [ns.department.value]; }
    if ns.enterprise.Some? { scopes := scopes + [ns.enterprise.value]; }
    if ns.tenant.Some? { scopes := scopes + [ns.tenant.value]; }
    scopes := scopes + [ns.global];
  }

  /** `memory_context_chain`, pushing scope by scope. */
  method BuildMemoryContextChain(ns: SessionNamespace) returns (scopes: seq<string>)
    ensures scopes == MemoryContextChain(ns)
  {
    scopes := [ns.global];
    if ns.tenant.Some? { scopes := scopes + [ns.tenant.value]; }
    if ns.enterprise.Some? { scopes := scopes + [ns.enterprise.value]; }
    if ns.department.Some? { scopes := scopes + [ns.department.value]; }
    scopes := scopes + ns.roles;
    scopes := scopes + [ns.user];
    scopes := scopes + [ns.session];
  }

  /** Every scope of the normalised context carries the prefix of its layer. */
  ghost predicate WellPrefixed(context: AccessContext) {
    var c := Normalized(context);
    && (c.tenant.Some? ==> Text.StartsWith(c.tenant.value, "tenant:"))
    && (c.enterprise.Some? ==> Text.StartsWith(c.enterprise.value, "enterprise:"))
    && (c.department.Some? ==> Text.StartsWith(c.department.value, "department:"))
    && forall i :: 0 <= i < |c.roles| ==> Text.StartsWith(c.roles[i], "role:")
  }

  predicate HasKnownLayer(scope: string) {
    || "session:" <= scope || "user:" <= scope || "role:" <= scope || "department:" <= scope
    || "enterprise:" <= scope || "tenant:" <= scope || scope == "global"
  }

  /** Each prefix names a layer and gives its rank; anything else is a layer of its own, ranked last. */
  lemma PrefixGivesRank(scope: string)
    ensures "session:" <= scope ==> ScopeRank(scope) == 0 && ScopeLayer(scope) == "session"
    ensures "user:" <= scope ==> ScopeRank(scope) == 1 && ScopeLayer(scope) == "user"
    ensures "role:" <= scope ==> ScopeRank(scope) == 2 && ScopeLayer(scope) == "role"
    ensures "department:" <= scope ==> ScopeRank(scope) == 3 && ScopeLayer(scope) == "department"
    ensures "enterprise:" <= scope ==> ScopeRank(scope) == 4 && ScopeLayer(scope) == "enterprise"
    ensures "tenant:" <= scope ==> ScopeRank(scope) == 5 && ScopeLayer(scope) == "tenant"
    ensures scope == "global" ==> ScopeRank(scope) == 6 && ScopeLayer(scope) == "global"
    ensures !HasKnownLayer(scope) ==> ScopeRank(scope) == 7 && ScopeLayer(scope) == "scope"
  {
    assert |scope| > 0 && "session:" <= scope ==> scope[0] == "session:"[0];
    assert |scope| > 0 && "user:" <= scope ==> scope[0] == "user:"[0];
    assert |scope| > 0 && "role:" <= scope ==> scope[0] == "role:"[0];
    assert |scope| > 0 && "department:" <= scope ==> scope[0] == "department:"[0];
    assert |scope| > 0 && "enterprise:" <= scope ==> scope[0] == "enterprise:"[0];
    assert |scope| > 0 && "tenant:" <= scope ==> scope[0] == "tenant:"[0];
  }

  ghost predicate AllRank(xs: seq<string>, rank: nat) {
    forall i :: 0 <= i < |xs| ==> ScopeRank(xs[i]) == rank
  }

  /** Strictly sorted, and all ranks below `bound`. */
  ghost predicate RankedBelow(xs: seq<string>, bound: nat) {
    Sorting.StrictlySorted(xs, ScopeLeq) && forall i :: 0 <= i < |xs| ==> ScopeRank(xs[i]) < bound
  }

  lemma AppendRanked(xs: seq<string>, ys: seq<string>, rank: nat)
    requires RankedBelow(xs, rank) && AllRank(ys, rank) && Sorting.StrictlySorted(ys, ScopeLeq)
    ensures RankedBelow(xs + ys, rank + 1)
  {
    var all := xs + ys;
    forall i, j | 0 <= i < j < |all| ensures ScopeLeq(all[i], all[j]) && !ScopeLeq(all[j], all[i]) {
      if i >= |xs| {
        assert all[i] == ys[i - |xs|] && all[j] == ys[j - |xs|];
      }
    }
  }

  ghost predicate Carries(scope: Option<string>, prefix: string) {
    scope.Some? ==> Text.StartsWith(scope.value, prefix)
  }

  /** Every scope carries its layer's prefix, and roles come in order. */
  ghost predicate Prefixed(ns: SessionNamespace) {
    && Text.StartsWith(ns.session, "session:") && Text.StartsWith(ns.user, "user:") && ns.global == "global"
    && Carries(ns.tenant, "tenant:") && Carries(ns.enterprise, "enterprise:") && Carries(ns.department, "department:")
    && (forall i :: 0 <= i < |ns.roles| ==> Text.StartsWith(ns.roles[i], "role:"))
    && Sorting.StrictlySorted(ns.roles, Text.Leq)
  }

  lemma NamespacePrefixed(k: SessionKey, context: Option<AccessContext>)
    requires context.Some? ==> WellPrefixed(context.value)
    ensures Prefixed(NamespaceFor(k, context))
  {
    assert Carries(FromSessionKey(k).tenant, "tenant:");
    if context.Some? {
      NormalizedRolesAreSorted(context.value.roles);
    }
  }

  lemma ListedRank(scope: Option<string>, rank: nat)
    requires scope.Some? ==> ScopeRank(scope.value) == rank
    ensures AllRank(Listed(scope), rank)
  {
  }

  lemma PrefixedRanks(ns: SessionNamespace)
    requires Prefixed(ns)
    ensures AllRank([ns.session], 0) && AllRank([ns.user], 1) && AllRank(ns.roles, 2)
    ensures AllRank(Listed(ns.department), 3) && AllRank(Listed(ns.enterprise), 4)
    ensures AllRank(Listed(ns.tenant), 5) && AllRank([ns.global], 6)
  {
    forall scope ensures
        && (Text.StartsWith(scope, "session:") ==> ScopeRank(scope) == 0)
        && (Text.StartsWith(scope, "user:") ==> ScopeRank(scope) == 1)
        && (Text.StartsWith(scope, "role:") ==> ScopeRank(scope) == 2)
        && (Text.StartsWith(scope, "department:") ==> ScopeRank(scope) == 3)
        && (Text.StartsWith(scope, "enterprise:") ==> ScopeRank(scope) == 4)
        && (Text.StartsWith(scope, "tenant:") ==> ScopeRank(scope) == 5)
    {
      PrefixGivesRank(scope);
    }
    ListedRank(ns.department, 3);
    ListedRank(ns.enterprise, 4);
    ListedRank(ns.tenant, 5);
    PrefixGivesRank(ns.global);
  }

  lemma RankedPieces(user: seq<string>, roles: seq<string>, department: seq<string>, enterprise: seq<string>,
                     tenant: seq<string>, global: seq<string>)
    requires RankedBelow(user, 2)
    requires AllRank(roles, 2) && Sorting.StrictlySorted(roles, ScopeLeq)
    requires AllRank(department, 3) && |department| <= 1 && AllRank(enterprise, 4) && |enterprise| <= 1
    requires AllRank(tenant, 5) && |tenant| <= 1 && AllRank(global, 6) && |global| <= 1
    ensures RankedBelow(user + roles + department + enterprise + tenant + global, 7)
  {
    AppendRanked(user, roles, 2);
    AppendRanked(user + roles, department, 3);
    AppendRanked(user + roles + department, enterprise, 4);
    AppendRanked(user + roles + department + enterprise, tenant, 5);
    AppendRanked(user + roles + department + enterprise + tenant, global, 6);
  }

  /** With correctly prefixed scopes, the chain lists scopes in strictly increasing order
      of rank and name, so it names none twice. */
  lemma VisibilityChainIsRanked(k: SessionKey, context: Option<AccessContext>)
    requires context.Some? ==> WellPrefixed(context.value)
    ensures Sorting.StrictlySorted(VisibilityChain(NamespaceFor(k, context)), ScopeLeq)
  {
    var ns := NamespaceFor(k, context);
    NamespacePrefixed(k, context);
    PrefixedRanks(ns);
    assert Sorting.StrictlySorted(ns.roles, ScopeLeq);
    RankedPieces([ns.user], ns.roles, Listed(ns.department), Listed(ns.enterprise), Listed(ns.tenant), [ns.global]);
  }

  /** No scope ranks below one that comes after it. */
  ghost predicate FallingRanks(xs: seq<string>) {
    forall i, j :: 0 <= i < j < |xs| ==> ScopeRank(xs[i]) >= ScopeRank(xs[j])
  }

  lemma AppendFalling(xs: seq<string>, bound: nat, ys: seq<string>, rank: nat)
    requires FallingRanks(xs) && (forall i :: 0 <= i < |xs| ==> ScopeRank(xs[i]) >= bound)
    requires AllRank(ys, rank) && rank <= bound
    ensures FallingRanks(xs + ys) && forall i :: 0 <= i < |xs + ys| ==> ScopeRank((xs + ys)[i]) >= rank
  {
  }

  lemma FallingPieces(global: seq<string>, tenant: seq<string>, enterprise: seq<string>, department: seq<string>,
                      roles: seq<string>, user: seq<string>, session: seq<string>)
    requires AllRank(global, 6) && AllRank(tenant, 5) && AllRank(enterprise, 4) && AllRank(department, 3)
    requires AllRank(roles, 2) && AllRank(user, 1) && AllRank(session, 0)
    ensures FallingRanks(global + tenant + enterprise + department + roles + user + session)
  {
    AppendFalling(global, 6, tenant, 5);
    AppendFalling(global + tenant, 5, enterprise, 4);
    AppendFalling(global + tenant + enterprise, 4, department, 3);
    AppendFalling(global + tenant + enterprise + department, 3, roles, 2);
    AppendFalling(global + tenant + enterprise + department + roles, 2, user, 1);
    AppendFalling(global + tenant + enterprise + department + roles + user, 1, session, 0);
  }

  function SharedLayers(ns: SessionNamespace): seq<string> {
    Listed(ns.department) + Listed(ns.enterprise) + Listed(ns.tenant) + [ns.global]
  }

  function SharedLayersTurned(ns: SessionNamespace): seq<string> {
    [ns.global] + Listed(ns.tenant) + Listed(ns.enterprise) + Listed(ns.department)
  }

  lemma SharedTurnsRound(ns: SessionNamespace, i: nat)
    ensures |SharedLayers(ns)| == |SharedLayersTurned(ns)| >= 1
    ensures i < |SharedLayers(ns)| ==>
              SharedLayersTurned(ns)[i] == SharedLayers(ns)[|SharedLayers(ns)| - 1 - i]
  {
  }

  lemma ChainParts(ns: SessionNamespace)
    ensures VisibilityChain(ns) == [ns.user] + ns.roles + SharedLayers(ns)
    ensures MemoryContextChain(ns) == SharedLayersTurned(ns) + ns.roles + [ns.user, ns.session]
  {
  }

  lemma PartsTurnRound(user: string, roles: seq<string>, shared: seq<string>, turned: seq<string>, session: string)
    requires |shared| == |turned|
    ensures var seen, read, r := [user] + roles + shared, turned + roles + [user, session], |roles|;
            && |read| == |seen| + 1
            && read[|read| - 1] == session && read[|read| - 2] == seen[0]
            && read[|read| - 2 - r..|read| - 2] == seen[1..1 + r]
  {
  }

  /** The memory chain is the visibility chain turned round, with the roles in the same order, and then
      the session's own scope. */
  lemma MemoryChainTurnsRound(ns: SessionNamespace, i: nat)
    ensures var seen, read, r := VisibilityChain(ns), MemoryContextChain(ns), |ns.roles|;
            && |read| == |seen| + 1 && |seen| >= r + 2
            && read[|read| - 1] == ns.session && read[|read| - 2] == seen[0]
            && read[|read| - 2 - r..|read| - 2] == seen[1..1 + r]
            && (i < |seen| - 1 - r ==> read[i] == seen[|seen| - 1 - i])
  {
    ChainParts(ns);
    SharedTurnsRound(ns, i);
    PartsTurnRound(ns.user, ns.roles, SharedLayers(ns), SharedLayersTurned(ns), ns.session);
  }

  /** The session's own scope spells its key. */
  lemma SessionScopeSpellsTheKey(k: SessionKey, context: Option<AccessContext>)
    ensures NamespaceFor(k, context).session == "session:" + Spelling(k.channelType, k.channelUserId, k.teamId)
  {
    SpellingIsAsStr(k);
  }

  /** With correctly prefixed scopes, memory is read from the most shared layer to the most private. */
  lemma MemoryChainFalls(k: SessionKey, context: Option<AccessContext>)
    requires context.Some? ==> WellPrefixed(context.value)
    ensures FallingRanks(MemoryContextChain(NamespaceFor(k, context)))
  {
    var ns := NamespaceFor(k, context);
    NamespacePrefixed(k, context);
    PrefixedRanks(ns);
    FallingPieces([ns.global], Listed(ns.tenant), Listed(ns.enterprise), Listed(ns.department), ns.roles,
                  [ns.user], [ns.session]);
  }
}
