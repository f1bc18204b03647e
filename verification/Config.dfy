/**
 The command-line configuration: what is kept in memory, what goes to disk, and how organizations are added.

 The codeartifact, network and ai sections pass through unchanged and are kept as opaque text.
 A legacy session list is given as its roles in session-name order, which is the order the map yields them.
 */
module Config {
  import opened Options

  datatype ServerConfig = ServerConfig(
    serverUrl: string,
    token: Option<string>,
    clientId: Option<string>,
    registrationAccessToken: Option<string>,
    registrationClientUri: Option<string>,
    dpopKeyId: Option<string>,
    registrationVerifiedAt: Option<string>)

  datatype ServerConfigFile = ServerConfigFile(
    serverUrl: Option<string>,
    token: Option<string>,
    clientId: Option<string>,
    registrationAccessToken: Option<string>,
    registrationClientUri: Option<string>,
    dpopKeyId: Option<string>,
    registrationVerifiedAt: Option<string>)

  datatype IdentityCenter = IdentityCenter(applicationArn: string, region: string, tenant: Option<string>)

  datatype Organization = Organization(role: string, identityCenter: Option<IdentityCenter>)

  datatype AwsOrgs = AwsOrgs(organizations: seq<Organization>, legacyRoles: seq<string>)

  datatype ConfigData = ConfigData(
    currentServer: Option<string>,
    servers: map<string, ServerConfig>,
    codeartifact: Option<string>,
    docker: Option<map<string, string>>,
    aws: Option<AwsOrgs>,
    network: Option<string>,
    ai: Option<string>)

  /** The flat fields of the first format: read, never written. */
  datatype Legacy = Legacy(
    serverUrl: Option<string>,
    token: Option<string>,
    clientId: Option<string>,
    registrationAccessToken: Option<string>,
    registrationClientUri: Option<string>,
    dpopKeyId: Option<string>)

  const NO_LEGACY := Legacy(None, None, None, None, None, None)

  datatype ConfigFile = ConfigFile(
    currentServer: Option<string>,
    servers: map<string, ServerConfigFile>,
    codeartifact: Option<string>,
    docker: Option<map<string, string>>,
    aws: Option<AwsOrgs>,
    network: Option<string>,
    ai: Option<string>,
    legacy: Legacy)

  /** The host key of a URL, or `None` when it does not parse. */
  type HostOf = string -> Option<string>

  const NEW_SERVER := ServerConfig("", None, None, None, None, None, None)

  // ---------------------------------------------------------------------
  // The current server
  // ---------------------------------------------------------------------

  /** The server entries by host key, and which one is current. */
  datatype Servers = Servers(current: Option<string>, entries: map<string, ServerConfig>) {
    function Current(): Option<ServerConfig> {
      if current.Some? && current.value in entries then Some(entries[current.value]) else None
    }
  }

  /** Make the URL's host current; its entry, new or old, takes the URL and keeps everything else. */
  function WithServerUrl(hostOf: HostOf, s: Servers, url: string): Servers {
    if hostOf(url).None? then s
    else
      var h := hostOf(url).value;
      Servers(Some(h), s.entries[h := (if h in s.entries then s.entries[h] else NEW_SERVER).(serverUrl := url)])
  }

  /** Set or clear the token of the current entry, if there is one. */
  function WithToken(s: Servers, token: Option<string>): Servers {
    if s.Current().None? then s
    else s.(entries := s.entries[s.current.value := s.entries[s.current.value].(token := token)])
  }

  // ---------------------------------------------------------------------
  // Saving
  // ---------------------------------------------------------------------

  function ServerToFile(s: ServerConfig): ServerConfigFile {
    ServerConfigFile(Some(s.serverUrl), s.token, s.clientId, s.registrationAccessToken, s.registrationClientUri,
                     s.dpopKeyId, s.registrationVerifiedAt)
  }

  /** The file form of a configuration; an empty AWS or Docker section is left out. */
  function ToFile(c: ConfigData): ConfigFile {
    ConfigFile(
      c.currentServer,
      map h | h in c.servers :: ServerToFile(c.servers[h]),
      c.codeartifact,
      if c.docker.Some? && c.docker.value == map[] then None else c.docker,
      if c.aws.Some? && c.aws.value.organizations == [] then None else c.aws,
      c.network,
      c.ai,
      NO_LEGACY)
  }

  /** What serialization keeps: the legacy fields and the legacy session list are never written. */
  function OnDisk(f: ConfigFile): ConfigFile {
    f.(aws := if f.aws.None? then None else Some(f.aws.value.(legacyRoles := [])), legacy := NO_LEGACY)
  }

  function Save(c: ConfigData): ConfigFile {
    OnDisk(ToFile(c))
  }

  // ---------------------------------------------------------------------
  // Loading
  // ---------------------------------------------------------------------

  function ServerFromFile(s: ServerConfigFile): ServerConfig {
    ServerConfig(if s.serverUrl.None? then "" else s.serverUrl.value, s.token, s.clientId, s.registrationAccessToken,
                 s.registrationClientUri, s.dpopKeyId, s.registrationVerifiedAt)
  }

  /** Non-empty roles at their first occurrence. */
  function Migrated(roles: seq<string>): seq<string> {
    if roles == [] then []
    else
      var init, last := Migrated(roles[..|roles| - 1]), roles[|roles| - 1];
      if last == "" || last in init then init else init + [last]
  }

  function BareOrgs(roles: seq<string>): seq<Organization> {
    seq(|roles|, i requires 0 <= i < |roles| => Organization(roles[i], None))
  }

  function LoadAws(a: AwsOrgs): AwsOrgs {
    AwsOrgs(if a.organizations == [] then BareOrgs(Migrated(a.legacyRoles)) else a.organizations, [])
  }

  function Load(hostOf: HostOf, f: ConfigFile): ConfigData {
    var servers := map h | h in f.servers :: ServerFromFile(f.servers[h]);
    var url := f.legacy.serverUrl;
    var host := if servers == map[] && url.Some? then hostOf(url.value) else None;
    ConfigData(
      if host.Some? then host else f.currentServer,
      if host.Some?
      then map[host.value := ServerConfig(url.value, f.legacy.token, f.legacy.clientId,
                                          f.legacy.registrationAccessToken, f.legacy.registrationClientUri,
                                          f.legacy.dpopKeyId, None)]
      else servers,
      f.codeartifact,
      f.docker,
      if f.aws.None? then None else Some(LoadAws(f.aws.value)),
      f.network,
      f.ai)
  }

  /** Each entry of a file is loaded field by field; a missing URL is empty. */
  lemma LoadedEntry(hostOf: HostOf, f: ConfigFile, h: string)
    requires h in f.servers
    ensures h in Load(hostOf, f).servers && Load(hostOf, f).currentServer == f.currentServer
    ensures var e, l := f.servers[h], Load(hostOf, f).servers[h];
            && l.serverUrl == (if e.serverUrl.Some? then e.serverUrl.value else "")
            && l.token == e.token && l.clientId == e.clientId && l.dpopKeyId == e.dpopKeyId
            && l.registrationAccessToken == e.registrationAccessToken
            && l.registrationClientUri == e.registrationClientUri
            && l.registrationVerifiedAt == e.registrationVerifiedAt
  {
    var servers := map k | k in f.servers :: ServerFromFile(f.servers[k]);
    assert h in servers;
  }

  /** Each entry is saved field by field. */
  lemma SavedEntry(c: ConfigData, h: string)
    requires h in c.servers
    ensures h in Save(c).servers && Save(c).currentServer == c.currentServer
    ensures var e, f := c.servers[h], Save(c).servers[h];
            && f.serverUrl == Some(e.serverUrl) && f.token == e.token && f.clientId == e.clientId
            && f.dpopKeyId == e.dpopKeyId
            && f.registrationAccessToken == e.registrationAccessToken
            && f.registrationClientUri == e.registrationClientUri
            && f.registrationVerifiedAt == e.registrationVerifiedAt
    ensures Save(c).legacy == Legacy(None, None, None, None, None, None)
  {
  }

  /** An empty AWS or Docker section and the legacy sessions are not saved; everything else is. */
  lemma SavedSections(c: ConfigData)
    ensures var f := Save(c);
            && f.servers.Keys == c.servers.Keys
            && f.codeartifact == c.codeartifact && f.network == c.network && f.ai == c.ai
            && f.docker == (if c.docker == Some(map[]) then None else c.docker)
            && (f.aws.Some? <==> c.aws.Some? && c.aws.value.organizations != [])
            && (f.aws.Some? ==> f.aws.value.organizations == c.aws.value.organizations && f.aws.value.legacyRoles == [])
  {
  }

  /** A file of the first format becomes one entry, under its URL's host, with each flat field in its own place. */
  lemma LegacyEntry(hostOf: HostOf, f: ConfigFile, h: string)
    requires f.servers == map[] && f.legacy.serverUrl.Some? && hostOf(f.legacy.serverUrl.value) == Some(h)
    ensures var c := Load(hostOf, f);
            && c.currentServer == Some(h) && c.servers.Keys == {h}
            && c.servers[h].serverUrl == f.legacy.serverUrl.value
            && c.servers[h].token == f.legacy.token && c.servers[h].clientId == f.legacy.clientId
            && c.servers[h].dpopKeyId == f.legacy.dpopKeyId
            && c.servers[h].registrationAccessToken == f.legacy.registrationAccessToken
            && c.servers[h].registrationClientUri == f.legacy.registrationClientUri
            && c.servers[h].registrationVerifiedAt == None
  {
  }

  /** Flat fields beside entries, or without a usable URL, are not loaded. */
  lemma LegacyIgnored(hostOf: HostOf, f: ConfigFile)
    requires f.servers != map[] || f.legacy.serverUrl.None? || hostOf(f.legacy.serverUrl.value).None?
    ensures Load(hostOf, f).servers.Keys == f.servers.Keys && Load(hostOf, f).currentServer == f.currentServer
  {
    if f.servers != map[] {
      var h :| h in f.servers;
      var servers := map k | k in f.servers :: ServerFromFile(f.servers[k]);
      assert h in servers;
    }
  }

  /** Organizations win over legacy sessions; the other sections pass through. */
  lemma LoadedSections(hostOf: HostOf, f: ConfigFile)
    ensures var c := Load(hostOf, f);
            && c.codeartifact == f.codeartifact && c.docker == f.docker && c.network == f.network && c.ai == f.ai
            && c.aws.Some? == f.aws.Some?
            && (f.aws.Some? && f.aws.value.organizations != [] ==>
                  c.aws.value.organizations == f.aws.value.organizations)
            && (f.aws.Some? && f.aws.value.organizations == [] ==>
                  && |c.aws.value.organizations| == |Migrated(f.aws.value.legacyRoles)|
                  && forall i :: 0 <= i < |c.aws.value.organizations| ==>
                       && c.aws.value.organizations[i].role == Migrated(f.aws.value.legacyRoles)[i]
                       && c.aws.value.organizations[i].identityCenter == None)
  {
  }

  /** Setting a server URL changes that entry's URL and which entry is current, and nothing else. */
  lemma UrlAlone(hostOf: HostOf, s: Servers, url: string, h: string)
    ensures hostOf(url).None? ==> WithServerUrl(hostOf, s, url) == s
    ensures hostOf(url).Some? ==>
              var s' := WithServerUrl(hostOf, s, url);
              && s'.current == hostOf(url)
              && s'.entries.Keys == s.entries.Keys + {hostOf(url).value}
              && (h in s.entries && hostOf(url) != Some(h) ==> s'.entries[h] == s.entries[h])
              && (hostOf(url) == Some(h) ==>
                    && s'.entries[h].serverUrl == url
                    && (h in s.entries ==> s'.entries[h].(serverUrl := s.entries[h].serverUrl) == s.entries[h])
                    && (h !in s.entries ==> s'.entries[h] == ServerConfig(url, None, None, None, None, None, None)))
  {
  }

  /** Setting or clearing a token changes the current entry's token and nothing else. */
  lemma TokenAlone(s: Servers, token: Option<string>, h: string)
    ensures var s' := WithToken(s, token);
            && s'.current == s.current && s'.entries.Keys == s.entries.Keys
            && (h in s.entries && s.current != Some(h) ==> s'.entries[h] == s.entries[h])
            && (h in s.entries && s.current == Some(h) ==>
                  && s'.entries[h].token == token
                  && s'.entries[h].(token := s.entries[h].token) == s.entries[h])
  {
  }

  /** A configuration with its empty sections absent. */
  function Normal(c: ConfigData): ConfigData {
    c.(docker := if c.docker.Some? && c.docker.value == map[] then None else c.docker,
       aws := if c.aws.Some? && c.aws.value.organizations != []
              then Some(c.aws.value.(legacyRoles := [])) else None)
  }

  /** Loading a saved configuration gives it back, with an empty AWS or Docker section turned absent. */
  lemma LoadOfSave(hostOf: HostOf, c: ConfigData)
    ensures Load(hostOf, Save(c)) == Normal(c)
  {
    var saved := Save(c);
    var servers := map h | h in saved.servers :: ServerFromFile(saved.servers[h]);
    assert servers == c.servers;
  }

  /** Saving what was loaded writes the same file again. */
  lemma SaveIsStable(hostOf: HostOf, c: ConfigData)
    ensures Save(Load(hostOf, Save(c))) == Save(c)
  {
    LoadOfSave(hostOf, c);
  }

  /** Loading any file, legacy or not, and saving it twice over changes nothing after the first time. */
  lemma MigrationHappensOnce(hostOf: HostOf, f: ConfigFile)
    ensures var c := Load(hostOf, f); Load(hostOf, Save(c)) == Normal(c) && Save(Normal(c)) == Save(c)
  {
    LoadOfSave(hostOf, Load(hostOf, f));
    SaveIsStable(hostOf, Load(hostOf, f));
  }

  // ---------------------------------------------------------------------
  // Migrating legacy sessions
  // ---------------------------------------------------------------------

  method MigrateSessions(roles: seq<string>) returns (orgs: seq<Organization>)
    ensures orgs == BareOrgs(Migrated(roles))
  {
    orgs := [];
    var seen: set<string> := {};
    var i := 0;
    while i < |roles|
      invariant i <= |roles|
      invariant orgs == BareOrgs(Migrated(roles[..i]))
      invariant seen == set r | r in Migrated(roles[..i])
    {
      assert roles[..i + 1][..i] == roles[..i];
      if roles[i] != "" && roles[i] !in seen {
        seen := seen + {roles[i]};
        orgs := orgs + [Organization(roles[i], None)];
      }
      i := i + 1;
    }
    assert roles[..i] == roles;
  }

  /** The load conversion: entries one by one, then the flat fields if there were none, then legacy sessions. */
  method LoadConfig(hostOf: HostOf, f: ConfigFile) returns (c: ConfigData)
    ensures c == Load(hostOf, f)
  {
    var servers: map<string, ServerConfig> := map[];
    var rest := f.servers.Keys;
    while rest != {}
      invariant rest <= f.servers.Keys
      invariant servers == map h | h in f.servers && h !in rest :: ServerFromFile(f.servers[h])
      decreases |rest|
    {
      var h :| h in rest;
      servers := servers[h := ServerFromFile(f.servers[h])];
      rest := rest - {h};
    }
    assert servers == map h | h in f.servers :: ServerFromFile(f.servers[h]);
    var currentServer := f.currentServer;
    if servers == map[] && f.legacy.serverUrl.Some? {
      var url := f.legacy.serverUrl.value;
      var host := hostOf(url);
      if host.Some? {
        currentServer := host;
        servers := map[host.value := ServerConfig(url, f.legacy.token, f.legacy.clientId,
                                                  f.legacy.registrationAccessToken, f.legacy.registrationClientUri,
                                                  f.legacy.dpopKeyId, None)];
      }
    }
    var aws := f.aws;
    if aws.Some? {
      var orgs := aws.value.organizations;
      if orgs == [] && aws.value.legacyRoles != [] {
        orgs := MigrateSessions(aws.value.legacyRoles);
      }
      assert orgs == LoadAws(aws.value).organizations;
      aws := Some(AwsOrgs(orgs, []));
    }
    c := ConfigData(currentServer, servers, f.codeartifact, f.docker, aws, f.network, f.ai);
  }

  function FirstIndex(s: seq<string>, x: string): nat
    requires x in s
    ensures FirstIndex(s, x) < |s| && s[FirstIndex(s, x)] == x && x !in s[..FirstIndex(s, x)]
  {
    if s[0] == x then 0 else assert s == [s[0]] + s[1..]; 1 + FirstIndex(s[1..], x)
  }

  /** The migrated organizations are exactly the distinct non-empty legacy roles, in order of first appearance. */
  lemma {:induction false} MigratedRoles(roles: seq<string>)
    ensures forall r :: r in Migrated(roles) <==> r in roles && r != ""
    ensures forall i, j :: 0 <= i < j < |Migrated(roles)| ==> Migrated(roles)[i] != Migrated(roles)[j]
    ensures forall i, j :: 0 <= i < j < |Migrated(roles)| ==>
              Migrated(roles)[i] in roles && Migrated(roles)[j] in roles
              && FirstIndex(roles, Migrated(roles)[i]) < FirstIndex(roles, Migrated(roles)[j])
  {
    if roles != [] {
      var init, last := roles[..|roles| - 1], roles[|roles| - 1];
      MigratedRoles(init);
      assert roles == init + [last];
      forall r | r in init ensures FirstIndex(roles, r) == FirstIndex(init, r) {
        FirstIndexOfPrefix(init, last, r);
      }
      if last !in init {
        assert FirstIndex(roles, last) == |init|;
      }
    }
  }

  lemma {:induction false} FirstIndexOfPrefix(s: seq<string>, x: string, r: string)
    requires r in s
    ensures FirstIndex(s + [x], r) == FirstIndex(s, r)
  {
    if s[0] != r {
      assert (s + [x])[1..] == s[1..] + [x];
      FirstIndexOfPrefix(s[1..], x, r);
    }
  }

  // ---------------------------------------------------------------------
  // Organizations
  // ---------------------------------------------------------------------

  /** Keep the stored tenant when the same application is stored again without one. */
  function Merge(stored: Option<IdentityCenter>, incoming: Option<IdentityCenter>): Option<IdentityCenter> {
    if incoming.None? then stored
    else if stored.Some? && stored.value.applicationArn == incoming.value.applicationArn && incoming.value.tenant.None?
    then Some(incoming.value.(tenant := stored.value.tenant))
    else incoming
  }

  function Append(orgs: seq<Organization>, org: Organization): seq<Organization> {
    if orgs == [] then [org]
    else if orgs[0].role == org.role
    then [orgs[0].(identityCenter := Merge(orgs[0].identityCenter, org.identityCenter))] + orgs[1..]
    else [orgs[0]] + Append(orgs[1..], org)
  }

  predicate IsApplication(org: Organization, arn: string) {
    org.identityCenter.Some? && org.identityCenter.value.applicationArn == arn
  }

  function WithTenant(org: Organization, tenant: string): Organization
    requires org.identityCenter.Some?
  {
    org.(identityCenter := Some(org.identityCenter.value.(tenant := Some(tenant))))
  }

  function SetTenant(orgs: seq<Organization>, arn: string, tenant: string): seq<Organization> {
    if orgs == [] then []
    else if IsApplication(orgs[0], arn) then [WithTenant(orgs[0], tenant)] + orgs[1..]
    else [orgs[0]] + SetTenant(orgs[1..], arn, tenant)
  }

  /** `SetTenant` changes the first organization of that application in place. */
  lemma {:induction false} SetTenantAt(orgs: seq<Organization>, arn: string, tenant: string, i: nat)
    requires i <= |orgs| && forall j :: 0 <= j < i ==> !IsApplication(orgs[j], arn)
    requires i < |orgs| ==> IsApplication(orgs[i], arn)
    ensures SetTenant(orgs, arn, tenant) == if i == |orgs| then orgs else orgs[i := WithTenant(orgs[i], tenant)]
    ensures i < |orgs| ==>
              var org := SetTenant(orgs, arn, tenant)[i];
              && org.role == orgs[i].role && org.identityCenter.Some?
              && org.identityCenter.value.applicationArn == arn
              && org.identityCenter.value.region == orgs[i].identityCenter.value.region
              && org.identityCenter.value.tenant == Some(tenant)
  {
    if orgs != [] && i > 0 {
      SetTenantAt(orgs[1..], arn, tenant, i - 1);
      assert orgs == [orgs[0]] + orgs[1..];
    }
  }

  /** The list as a table: what is stored for a role. */
  function Lookup(orgs: seq<Organization>, role: string): Option<Option<IdentityCenter>> {
    if orgs == [] then None
    else if orgs[0].role == role then Some(orgs[0].identityCenter)
    else Lookup(orgs[1..], role)
  }

  function Roles(orgs: seq<Organization>): seq<string> {
    seq(|orgs|, i requires 0 <= i < |orgs| => orgs[i].role)
  }

  ghost predicate DistinctRoles(orgs: seq<Organization>) {
    forall i, j :: 0 <= i < j < |orgs| ==> orgs[i].role != orgs[j].role
  }

  /** `Append` changes the first organization of that role in place, or adds at the end. */
  lemma {:induction false} AppendAt(orgs: seq<Organization>, org: Organization, i: nat)
    requires i <= |orgs| && forall j :: 0 <= j < i ==> orgs[j].role != org.role
    requires i < |orgs| ==> orgs[i].role == org.role
    ensures Append(orgs, org) ==
            if i == |orgs| then orgs + [org]
            else orgs[i := orgs[i].(identityCenter := Merge(orgs[i].identityCenter, org.identityCenter))]
  {
    if orgs != [] && i > 0 {
      AppendAt(orgs[1..], org, i - 1);
      assert orgs == [orgs[0]] + orgs[1..];
    }
  }

  /**
   What is stored for a role once an organization with an application comes in: that application and region, and its
   tenant, or if it names none the tenant already stored for the same application.
   */
  lemma AppendStores(orgs: seq<Organization>, org: Organization)
    ensures org.identityCenter.None? && Lookup(orgs, org.role).Some? ==>
              Lookup(Append(orgs, org), org.role) == Lookup(orgs, org.role)
    ensures org.identityCenter.Some? ==>
              var before, after := Lookup(orgs, org.role), Lookup(Append(orgs, org), org.role);
              var same := before.Some? && before.value.Some?
                          && before.value.value.applicationArn == org.identityCenter.value.applicationArn;
              && after.Some? && after.value.Some?
              && after.value.value.applicationArn == org.identityCenter.value.applicationArn
              && after.value.value.region == org.identityCenter.value.region
              && after.value.value.tenant ==
                 if org.identityCenter.value.tenant.Some? then org.identityCenter.value.tenant
                 else if same then before.value.value.tenant else None
  {
    AppendUpdatesOneRole(orgs, org, org.role);
  }

  /** Appending updates the table at one role and nowhere else. */
  lemma {:induction false} AppendUpdatesOneRole(orgs: seq<Organization>, org: Organization, role: string)
    ensures Lookup(Append(orgs, org), role) ==
            if role != org.role then Lookup(orgs, role)
            else if Lookup(orgs, role).None? then Some(org.identityCenter)
            else Some(Merge(Lookup(orgs, role).value, org.identityCenter))
  {
    if orgs != [] && orgs[0].role != org.role {
      AppendUpdatesOneRole(orgs[1..], org, role);
    }
  }

  /** Appending keeps the roles in place and adds one at the end only if it is new. */
  lemma {:induction false} AppendKeepsRoles(orgs: seq<Organization>, org: Organization)
    ensures Roles(Append(orgs, org)) == if org.role in Roles(orgs) then Roles(orgs) else Roles(orgs) + [org.role]
  {
    if orgs != [] {
      var rest := orgs[1..];
      assert Roles(orgs) == [orgs[0].role] + Roles(rest);
      if orgs[0].role == org.role {
        assert Roles(Append(orgs, org)) == Roles(orgs);
      } else {
        AppendKeepsRoles(rest, org);
        assert Roles([orgs[0]] + Append(rest, org)) == [orgs[0].role] + Roles(Append(rest, org));
      }
    }
  }

  lemma RolesDistinct(orgs: seq<Organization>)
    ensures DistinctRoles(orgs) <==> forall i, j :: 0 <= i < j < |Roles(orgs)| ==> Roles(orgs)[i] != Roles(orgs)[j]
  {
    forall i | 0 <= i < |orgs| ensures Roles(orgs)[i] == orgs[i].role {
    }
  }

  lemma {:induction false} SetTenantKeepsRoles(orgs: seq<Organization>, arn: string, tenant: string)
    ensures Roles(SetTenant(orgs, arn, tenant)) == Roles(orgs)
    ensures forall role :: Lookup(SetTenant(orgs, arn, tenant), role) == Lookup(orgs, role)
              || (&& Lookup(orgs, role).Some? && Lookup(orgs, role).value.Some?
                  && Lookup(orgs, role).value.value.applicationArn == arn
                  && Lookup(SetTenant(orgs, arn, tenant), role)
                     == Some(Some(Lookup(orgs, role).value.value.(tenant := Some(tenant)))))
  {
    if orgs != [] {
      var rest := orgs[1..];
      assert Roles(orgs) == [orgs[0].role] + Roles(rest);
      if IsApplication(orgs[0], arn) {
        assert Roles(SetTenant(orgs, arn, tenant)) == Roles(orgs);
      } else {
        SetTenantKeepsRoles(rest, arn, tenant);
        assert Roles([orgs[0]] + SetTenant(rest, arn, tenant)) == [orgs[0].role] + Roles(SetTenant(rest, arn, tenant));
      }
    }
  }

  datatype OrgOp = AppendOrg(org: Organization) | RecordTenant(arn: string, tenant: string)

  function Apply(orgs: seq<Organization>, op: OrgOp): seq<Organization> {
    match op
    case AppendOrg(org) => Append(orgs, org)
    case RecordTenant(arn, tenant) => SetTenant(orgs, arn, tenant)
  }

  function ApplyAll(orgs: seq<Organization>, ops: seq<OrgOp>): seq<Organization>
    decreases |ops|
  {
    if ops == [] then orgs else ApplyAll(Apply(orgs, ops[0]), ops[1..])
  }

  lemma ApplyKeepsRolesDistinct(orgs: seq<Organization>, op: OrgOp)
    requires DistinctRoles(orgs)
    ensures DistinctRoles(Apply(orgs, op))
  {
    RolesDistinct(orgs);
    RolesDistinct(Apply(orgs, op));
    match op
    case AppendOrg(org) => AppendKeepsRoles(orgs, org);
    case RecordTenant(arn, tenant) => SetTenantKeepsRoles(orgs, arn, tenant);
  }

  /** Any sequence of changes keeps the roles distinct. */
  lemma {:induction false} RolesStayDistinct(orgs: seq<Organization>, ops: seq<OrgOp>)
    requires DistinctRoles(orgs)
    ensures DistinctRoles(ApplyAll(orgs, ops))
    decreases |ops|
  {
    if ops != [] {
      ApplyKeepsRolesDistinct(orgs, ops[0]);
      RolesStayDistinct(Apply(orgs, ops[0]), ops[1..]);
    }
  }

  /** The change spares role `role`'s application and tenant: another role, or the same application without a tenant. */
  predicate Spares(op: OrgOp, role: string, arn: string) {
    match op
    case AppendOrg(org) =>
      || org.role != role || org.identityCenter.None?
      || (org.identityCenter.value.applicationArn == arn && org.identityCenter.value.tenant.None?)
    case RecordTenant(a, _) => a != arn
  }

  predicate HasTenant(orgs: seq<Organization>, role: string, arn: string, tenant: Option<string>) {
    && Lookup(orgs, role).Some? && Lookup(orgs, role).value.Some?
    && Lookup(orgs, role).value.value.applicationArn == arn && Lookup(orgs, role).value.value.tenant == tenant
  }

  /** A stored tenant survives any sequence of changes that re-store its application without a tenant. */
  lemma {:induction false} TenantSurvives(orgs: seq<Organization>, ops: seq<OrgOp>, role: string, arn: string,
                                          tenant: Option<string>)
    requires HasTenant(orgs, role, arn, tenant)
    requires forall op :: op in ops ==> Spares(op, role, arn)
    ensures HasTenant(ApplyAll(orgs, ops), role, arn, tenant)
    decreases |ops|
  {
    if ops != [] {
      assert Spares(ops[0], role, arn);
      match ops[0] {
        case AppendOrg(org) => AppendUpdatesOneRole(orgs, org, role);
        case RecordTenant(a, t) => SetTenantKeepsRoles(orgs, a, t);
      }
      TenantSurvives(Apply(orgs, ops[0]), ops[1..], role, arn, tenant);
    }
  }

  // ---------------------------------------------------------------------
  // The configuration, updated in place
  // ---------------------------------------------------------------------

  class Store {
    const hostOf: HostOf
    var currentServer: Option<string>
    var servers: map<string, ServerConfig>
    var aws: Option<AwsOrgs>

    constructor (hostOf: HostOf)
      ensures this.hostOf == hostOf && currentServer == None && servers == map[] && aws == None
    {
      this.hostOf := hostOf;
      currentServer, servers, aws := None, map[], None;
    }

    function Organizations(): seq<Organization>
      reads this
    {
      if aws.None? then [] else aws.value.organizations
    }

    function View(): Servers
      reads this
    {
      Servers(currentServer, servers)
    }

    method SetServerUrl(url: string)
      modifies this`currentServer, this`servers
      ensures View() == WithServerUrl(hostOf, old(View()), url)
    {
      var host := hostOf(url);
      if host.Some? {
        currentServer := host;
        var entry := if host.value in servers then servers[host.value] else NEW_SERVER;
        servers := servers[host.value := entry.(serverUrl := url)];
      }
    }

    method SetToken(token: string)
      modifies this`servers
      ensures View() == WithToken(old(View()), Some(token))
    {
      if currentServer.Some? && currentServer.value in servers {
        servers := servers[currentServer.value := servers[currentServer.value].(token := Some(token))];
      }
    }

    method ClearToken()
      modifies this`servers
      ensures View() == WithToken(old(View()), None)
    {
      if currentServer.Some? && currentServer.value in servers {
        servers := servers[currentServer.value := servers[currentServer.value].(token := None)];
      }
    }

    /** The save half of a login: afterwards the current server has the login's URL and token. */
    method StoreLogin(url: string, token: string)
      modifies this`currentServer, this`servers
      ensures View() == WithToken(WithServerUrl(hostOf, old(View()), url), Some(token))
      ensures hostOf(url).Some? ==>
                && View().Current().Some?
                && View().Current().value.serverUrl == url && View().Current().value.token == Some(token)
      ensures forall h :: h in old(servers) && (hostOf(url).Some? ==> h != hostOf(url).value) &&
                          (hostOf(url).None? ==> Some(h) != old(currentServer)) ==>
                h in servers && servers[h] == old(servers)[h]
    {
      SetServerUrl(url);
      SetToken(token);
    }

    /** The local half of a logout: the server's entry takes the URL and loses its token; says whether there was one. */
    method ForgetLogin(url: string) returns (hadToken: bool)
      modifies this`currentServer, this`servers
      ensures var named := WithServerUrl(hostOf, old(View()), url);
              && (hadToken <==> named.Current().Some? && named.Current().value.token.Some?)
              && View() == if hadToken then WithToken(named, None) else named
      ensures View().Current().Some? ==> View().Current().value.token == None
    {
      SetServerUrl(url);
      hadToken := View().Current().Some? && View().Current().value.token.Some?;
      if hadToken {
        ClearToken();
      }
    }

    method AppendAwsOrg(org: Organization)
      modifies this`aws
      ensures aws.Some? && Organizations() == Append(old(Organizations()), org)
      ensures aws.value.legacyRoles == if old(aws).Some? then old(aws).value.legacyRoles else []
    {
      if aws.None? {
        aws := Some(AwsOrgs([], []));
      }
      var orgs := aws.value.organizations;
      var i := 0;
      while i < |orgs| && orgs[i].role != org.role
        invariant i <= |orgs|
        invariant forall j :: 0 <= j < i ==> orgs[j].role != org.role
      {
        i := i + 1;
      }
      AppendAt(orgs, org, i);
      if i < |orgs| {
        if org.identityCenter.Some? {
          var incoming := org.identityCenter.value;
          var current := orgs[i].identityCenter;
          if current.Some? && current.value.applicationArn == incoming.applicationArn && incoming.tenant.None? {
            incoming := incoming.(tenant := current.value.tenant);
          }
          aws := Some(aws.value.(organizations := orgs[i := orgs[i].(identityCenter := Some(incoming))]));
        }
      } else {
        aws := Some(aws.value.(organizations := orgs + [org]));
      }
    }

    method SetAccountAccessTenant(arn: string, tenant: string) returns (matched: bool)
      modifies this`aws
      ensures aws.Some? == old(aws).Some?
      ensures Organizations() == SetTenant(old(Organizations()), arn, tenant)
      ensures matched <==> exists o :: o in old(Organizations()) && IsApplication(o, arn)
    {
      if aws.None? {
        return false;
      }
      var orgs := aws.value.organizations;
      var i := 0;
      while i < |orgs|
        invariant i <= |orgs| && aws == old(aws)
        invariant forall j :: 0 <= j < i ==> !IsApplication(orgs[j], arn)
      {
        if IsApplication(orgs[i], arn) {
          SetTenantAt(orgs, arn, tenant, i);
          var idc := orgs[i].identityCenter.value;
          var org := orgs[i].(identityCenter := Some(idc.(tenant := Some(tenant))));
          aws := Some(aws.value.(organizations := orgs[i := org]));
          return true;
        }
        i := i + 1;
      }
      SetTenantAt(orgs, arn, tenant, i);
      return false;
    }
  }
}
