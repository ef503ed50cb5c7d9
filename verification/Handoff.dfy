/**
 From the volume context the controller returned to the connector the node uses
 (driver/iscsi_iscsi.go). What encoding/json makes of a string is a parameter.
 */
module Handoff {
  import opened Wrappers
  import opened Text

  /** encoding/json: a list of strings, and a map of strings; None is an error. */
  datatype Json = Json(list: string -> Option<seq<string>>, table: string -> Option<map<string, string>>)

  datatype Secrets = Secrets(secretsType: string, userName: string, password: string,
                             userNameIn: string, passwordIn: string)

  const NO_SECRETS: Secrets := Secrets("", "", "", "", "")

  /** iscsiDisk, without the copy of the secret map. */
  datatype Disk = Disk(volName: string, portals: seq<string>, iqn: string, lun: int, iface: string,
                       chapDiscovery: bool, chapSession: bool, sessionSecret: Secrets, discoverySecret: Secrets,
                       initiatorName: string)

  datatype Connector = Connector(volumeName: string, targetIqn: string, targetPortals: seq<string>, lun: int,
                                 doDiscovery: bool, sessionSecrets: Secrets, discoverySecrets: Secrets)

  datatype InfoError =
    | TargetInfoMissing
    | SecretIncomplete(key: string)
    | PortalsUnreadable
    | LunUnreadable

  /** A missing key reads as the empty string. */
  function Lookup(context: map<string, string>, key: string): string {
    if key in context then context[key] else ""
  }

  /** portalMounter: the default port is added when the portal names none. */
  function PortalMounter(portal: string): (p: string)
    ensures ':' in p
    ensures ':' in portal ==> p == portal
    ensures portal <= p
  {
    if ':' in portal then portal else portal + ":3260"
  }

  /** parseSecret: text that is not a map of strings counts as no secret. */
  function ParseSecret(json: Json, text: string): map<string, string> {
    match json.table(text)
    case None => map[]
    case Some(table) => table
  }

  /** The keys of a secret, in the order in which they are looked up. */
  const FIELDS: seq<string> := [".auth.username", ".auth.password", ".auth.username_in", ".auth.password_in"]

  predicate FirstMissing(secret: map<string, string>, prefix: string, number: int) {
    && 0 <= number < |FIELDS| && prefix + FIELDS[number] !in secret
    && forall k | 0 <= k < number :: prefix + FIELDS[k] in secret
  }

  /** parseSessionSecret and parseDiscoverySecret: the four fields in turn, the first missing one is the error. */
  function ParseChap(secret: map<string, string>, prefix: string): (r: Result<Secrets, InfoError>)
    ensures r.Success? <==> |secret| == 0 || forall k | 0 <= k < |FIELDS| :: prefix + FIELDS[k] in secret
    ensures r.Success? ==> (r.value == NO_SECRETS <==> |secret| == 0)
    ensures r.Success? && |secret| != 0 ==>
              && r.value.secretsType == "chap"
              && r.value.userName == Lookup(secret, prefix + FIELDS[0])
              && r.value.password == Lookup(secret, prefix + FIELDS[1])
              && r.value.userNameIn == Lookup(secret, prefix + FIELDS[2])
              && r.value.passwordIn == Lookup(secret, prefix + FIELDS[3])
    ensures r.Failure? ==> exists number :: FirstMissing(secret, prefix, number)
                                            && r.error == SecretIncomplete(prefix + FIELDS[number])
  {
    if |secret| == 0 then Success(NO_SECRETS)
    else if prefix + FIELDS[0] !in secret then Failure(SecretIncomplete(prefix + FIELDS[0]))
    else if prefix + FIELDS[1] !in secret then Failure(SecretIncomplete(prefix + FIELDS[1]))
    else if prefix + FIELDS[2] !in secret then Failure(SecretIncomplete(prefix + FIELDS[2]))
    else if prefix + FIELDS[3] !in secret then Failure(SecretIncomplete(prefix + FIELDS[3]))
    else Success(Secrets("chap", secret[prefix + FIELDS[0]], secret[prefix + FIELDS[1]],
                         secret[prefix + FIELDS[2]], secret[prefix + FIELDS[3]]))
  }

  const SESSION: string := "node.session"
  const DISCOVERY: string := "node.sendtargets"

  function Mounted(portals: seq<string>): (r: seq<string>)
    ensures |r| == |portals| && forall k | 0 <= k < |portals| :: r[k] == PortalMounter(portals[k])
  {
    seq(|portals|, k requires 0 <= k < |portals| => PortalMounter(portals[k]))
  }

  function InfoOf(json: Json, volumeId: string, context: map<string, string>): Result<Disk, InfoError> {
    var tp, iqn, lun := Lookup(context, "targetPortal"), Lookup(context, "iqn"), Lookup(context, "lun");
    if tp == "" || iqn == "" || lun == "" then Failure(TargetInfoMissing)
    else
      var secret := ParseSecret(json, Lookup(context, "secret"));
      var session := ParseChap(secret, SESSION);
      if session.Failure? then Failure(session.error)
      else
        var discovery := ParseChap(secret, DISCOVERY);
        if discovery.Failure? then Failure(discovery.error)
        else
          var portals := json.list(Lookup(context, "portals"));
          if portals.None? then Failure(PortalsUnreadable)
          else
            var l := Atoi(lun);
            if l.None? then Failure(LunUnreadable)
            else
              Success(Disk(volumeId, [PortalMounter(tp)] + Mounted(portals.value), iqn, ToInt32(l.value),
                           Lookup(context, "iscsiInterface"),
                           Lookup(context, "discoveryCHAPAuth") == "true", Lookup(context, "sessionCHAPAuth") == "true",
                           session.value, discovery.value, Lookup(context, "initiatorName")))
  }

  /** getISCSIInfo, with the loop that collects the portals. */
  method GetISCSIInfo(json: Json, volumeId: string, context: map<string, string>) returns (r: Result<Disk, InfoError>)
    ensures r == InfoOf(json, volumeId, context)
  {
    var tp, iqn, lun := Lookup(context, "targetPortal"), Lookup(context, "iqn"), Lookup(context, "lun");
    if tp == "" || iqn == "" || lun == "" {
      return Failure(TargetInfoMissing);
    }
    var secret := ParseSecret(json, Lookup(context, "secret"));
    var session := ParseChap(secret, SESSION);
    if session.Failure? {
      return Failure(session.error);
    }
    var discovery := ParseChap(secret, DISCOVERY);
    if discovery.Failure? {
      return Failure(discovery.error);
    }
    var bkportal := [PortalMounter(tp)];
    var portals := json.list(Lookup(context, "portals"));
    if portals.None? {
      return Failure(PortalsUnreadable);
    }
    for i := 0 to |portals.value|
      invariant bkportal == [PortalMounter(tp)] + Mounted(portals.value[..i])
    {
      bkportal := bkportal + [PortalMounter(portals.value[i])];
    }
    assert portals.value[..|portals.value|] == portals.value;
    var l := Atoi(lun);
    if l.None? {
      return Failure(LunUnreadable);
    }
    r := Success(Disk(volumeId, bkportal, iqn, ToInt32(l.value), Lookup(context, "iscsiInterface"),
                      Lookup(context, "discoveryCHAPAuth") == "true", Lookup(context, "sessionCHAPAuth") == "true",
                      session.value, discovery.value, Lookup(context, "initiatorName")));
  }

  /** buildISCSIConnector; None is a nil pointer. The discovery secret is passed on only with a session secret. */
  function BuildConnector(disk: Disk): Option<Connector> {
    if disk.volName == "" || disk.iqn == "" || disk.portals == [] then None
    else
      Some(Connector(disk.volName, disk.iqn, disk.portals, disk.lun, true,
                     disk.sessionSecret,
                     if disk.sessionSecret != NO_SECRETS then disk.discoverySecret else NO_SECRETS))
  }

  /** The exact condition under which a volume context is accepted. */
  lemma AcceptedExactlyWhen(json: Json, volumeId: string, context: map<string, string>)
    ensures InfoOf(json, volumeId, context).Success? <==>
            && Lookup(context, "targetPortal") != "" && Lookup(context, "iqn") != ""
            && Atoi(Lookup(context, "lun")).Some?
            && json.list(Lookup(context, "portals")).Some?
            && var secret := ParseSecret(json, Lookup(context, "secret"));
               || |secret| == 0
               || forall k | 0 <= k < |FIELDS| :: SESSION + FIELDS[k] in secret && DISCOVERY + FIELDS[k] in secret
  {
    var secret := ParseSecret(json, Lookup(context, "secret"));
    var session, discovery := ParseChap(secret, SESSION), ParseChap(secret, DISCOVERY);
    assert Atoi("").None?;
  }

  /**
   Once a context is accepted and the volume id is not empty, the connector is not
   nil: it points at the volume's own target, has at least one portal, every one
   of them with a port, and carries both secrets or neither.
   */
  lemma ConnectorDefined(json: Json, volumeId: string, context: map<string, string>)
    requires volumeId != "" && InfoOf(json, volumeId, context).Success?
    ensures var connector := BuildConnector(InfoOf(json, volumeId, context).value);
            && connector.Some?
            && connector.value.volumeName == volumeId && connector.value.targetIqn == Lookup(context, "iqn")
            && |connector.value.targetPortals| >= 1
            && connector.value.targetPortals[0] == PortalMounter(Lookup(context, "targetPortal"))
            && (forall k | 0 <= k < |connector.value.targetPortals| :: ':' in connector.value.targetPortals[k])
            && -0x8000_0000 <= connector.value.lun <= 0x7FFF_FFFF
            && (connector.value.sessionSecrets == NO_SECRETS <==> connector.value.discoverySecrets == NO_SECRETS)
  {
    var secret := ParseSecret(json, Lookup(context, "secret"));
    var disk := InfoOf(json, volumeId, context).value;
    assert disk.sessionSecret == NO_SECRETS <==> |secret| == 0;
    assert disk.discoverySecret == NO_SECRETS <==> |secret| == 0;
  }

  /** The portal, with the iSCSI port added when it names none. */
  predicate HasPort(p: string, portal: string) {
    p == if ':' in portal then portal else portal + ":3260"
  }

  /** These are the values of the four keys. */
  predicate CarriesKeys(s: Secrets, secret: map<string, string>, user: string, password: string,
                        userIn: string, passwordIn: string) {
    && user in secret && password in secret && userIn in secret && passwordIn in secret
    && s == Secrets("chap", secret[user], secret[password], secret[userIn], secret[passwordIn])
  }

  /** The session secret holds the keys for the session, and the discovery secret those for the discovery. */
  predicate CarriesSecrets(session: Secrets, discovery: Secrets, secret: map<string, string>) {
    && CarriesKeys(session, secret, "node.session.auth.username", "node.session.auth.password",
                   "node.session.auth.username_in", "node.session.auth.password_in")
    && CarriesKeys(discovery, secret, "node.sendtargets.auth.username", "node.sendtargets.auth.password",
                   "node.sendtargets.auth.username_in", "node.sendtargets.auth.password_in")
  }

  lemma KeysSpelledOut()
    ensures SESSION + FIELDS[0] == "node.session.auth.username" && SESSION + FIELDS[1] == "node.session.auth.password"
    ensures SESSION + FIELDS[2] == "node.session.auth.username_in"
    ensures SESSION + FIELDS[3] == "node.session.auth.password_in"
    ensures DISCOVERY + FIELDS[0] == "node.sendtargets.auth.username"
    ensures DISCOVERY + FIELDS[1] == "node.sendtargets.auth.password"
    ensures DISCOVERY + FIELDS[2] == "node.sendtargets.auth.username_in"
    ensures DISCOVERY + FIELDS[3] == "node.sendtargets.auth.password_in"
  {
  }

  lemma ChapFields(secret: map<string, string>)
    requires |secret| != 0 && ParseChap(secret, SESSION).Success? && ParseChap(secret, DISCOVERY).Success?
    ensures CarriesSecrets(ParseChap(secret, SESSION).value, ParseChap(secret, DISCOVERY).value, secret)
  {
    KeysSpelledOut();
    assert forall k | 0 <= k < |FIELDS| :: SESSION + FIELDS[k] in secret && DISCOVERY + FIELDS[k] in secret;
  }

  /** The target portal and then each further portal in order, all with a port. */
  ghost predicate CarriesPortals(portals: seq<string>, first: string, more: seq<string>) {
    && |portals| == 1 + |more| && HasPort(portals[0], first)
    && forall k | 0 <= k < |more| :: HasPort(portals[k + 1], more[k])
  }

  lemma PortalsCarried(portals: seq<string>, first: string, more: seq<string>)
    requires portals == [PortalMounter(first)] + Mounted(more)
    ensures CarriesPortals(portals, first, more)
  {
    assert forall k | 0 <= k < |more| :: portals[k + 1] == Mounted(more)[k];
  }

  /** Both secrets as the table has them, or neither when it is empty or cannot be read. */
  ghost predicate SecretsOf(connector: Connector, table: Option<map<string, string>>) {
    if table.None? || |table.value| == 0 then
      connector.sessionSecrets == connector.discoverySecrets == Secrets("", "", "", "", "")
    else
      CarriesSecrets(connector.sessionSecrets, connector.discoverySecrets, table.value)
  }

  lemma SecretsCarried(disk: Disk, table: Option<map<string, string>>)
    requires BuildConnector(disk).Some?
    requires var secret := if table.None? then map[] else table.value;
             ParseChap(secret, SESSION) == Success(disk.sessionSecret)
             && ParseChap(secret, DISCOVERY) == Success(disk.discoverySecret)
    ensures SecretsOf(BuildConnector(disk).value, table)
  {
    var secret := if table.None? then map[] else table.value;
    if |secret| != 0 {
      ChapFields(secret);
    }
  }

  /**
   What the connector behind an accepted context carries: the target portal and then
   each further portal in order, all with a port; the LUN number the context has, when
   it fits; discovery switched on; and the values of the session keys as the session
   secret and those of the discovery keys as the discovery secret, or neither when
   there is no secret or it cannot be read.
   */
  lemma ConnectorCarries(json: Json, volumeId: string, context: map<string, string>)
    requires volumeId != "" && InfoOf(json, volumeId, context).Success?
    ensures json.list(Lookup(context, "portals")).Some? && Atoi(Lookup(context, "lun")).Some?
    ensures BuildConnector(InfoOf(json, volumeId, context).value).Some?
    ensures var connector := BuildConnector(InfoOf(json, volumeId, context).value).value;
            var lun := Atoi(Lookup(context, "lun")).value;
            && CarriesPortals(connector.targetPortals, Lookup(context, "targetPortal"),
                              json.list(Lookup(context, "portals")).value)
            && (-0x8000_0000 <= lun <= 0x7FFF_FFFF ==> connector.lun == lun)
            && connector.doDiscovery
            && SecretsOf(connector, json.table(Lookup(context, "secret")))
  {
    hide CarriesPortals, SecretsOf, ParseChap;
    var disk := InfoOf(json, volumeId, context).value;
    PortalsCarried(disk.portals, Lookup(context, "targetPortal"), json.list(Lookup(context, "portals")).value);
    SecretsCarried(disk, json.table(Lookup(context, "secret")));
  }

  /** What else the disk takes from an accepted context. */
  lemma DiskCarries(json: Json, volumeId: string, context: map<string, string>)
    requires InfoOf(json, volumeId, context).Success?
    ensures var disk := InfoOf(json, volumeId, context).value;
            && disk.volName == volumeId
            && (disk.chapDiscovery <==> "discoveryCHAPAuth" in context && context["discoveryCHAPAuth"] == "true")
            && (disk.chapSession <==> "sessionCHAPAuth" in context && context["sessionCHAPAuth"] == "true")
            && disk.iface == (if "iscsiInterface" in context then context["iscsiInterface"] else "")
            && disk.initiatorName == (if "initiatorName" in context then context["initiatorName"] else "")
            && "iqn" in context && disk.iqn == context["iqn"]
  {
  }

  /** All four keys of the prefix are there. */
  predicate KeysThere(secret: map<string, string>, prefix: string) {
    && prefix + ".auth.username" in secret && prefix + ".auth.password" in secret
    && prefix + ".auth.username_in" in secret && prefix + ".auth.password_in" in secret
  }

  /**
   The error for a context that is not accepted is the first that is true of it: the
   target, the session keys, the discovery keys, the further portals, the LUN.
   */
  lemma RefusalOfContext(json: Json, volumeId: string, context: map<string, string>)
    requires InfoOf(json, volumeId, context).Failure?
    ensures var missing := "" in [Lookup(context, "targetPortal"), Lookup(context, "iqn"), Lookup(context, "lun")];
            var table := json.table(Lookup(context, "secret"));
            var secret := if table.None? then map[] else table.value;
            var sessionFine := KeysThere(secret, "node.session");
            var secretFine := |secret| == 0 || (sessionFine && KeysThere(secret, "node.sendtargets"));
            var prefix := if sessionFine then "node.sendtargets" else "node.session";
            var portalsFine := json.list(Lookup(context, "portals")).Some?;
            match InfoOf(json, volumeId, context).error
            case TargetInfoMissing => missing
            case SecretIncomplete(key) =>
              && !missing && !secretFine && key !in secret
              && exists k :: FirstMissing(secret, prefix, k) && key == prefix + FIELDS[k]
            case PortalsUnreadable => !missing && secretFine && !portalsFine
            case LunUnreadable => !missing && secretFine && portalsFine && Atoi(Lookup(context, "lun")).None?
  {
    var secret := ParseSecret(json, Lookup(context, "secret"));
    KeysThereExactly(secret, SESSION);
    KeysThereExactly(secret, DISCOVERY);
  }

  lemma KeysThereExactly(secret: map<string, string>, prefix: string)
    ensures KeysThere(secret, prefix) <==> forall k | 0 <= k < |FIELDS| :: prefix + FIELDS[k] in secret
  {
    assert FIELDS[0] == ".auth.username" && FIELDS[1] == ".auth.password";
    assert FIELDS[2] == ".auth.username_in" && FIELDS[3] == ".auth.password_in";
  }

  /** Normalising a portal twice is normalising it once. */
  lemma PortalIdempotent(portal: string)
    ensures PortalMounter(PortalMounter(portal)) == PortalMounter(portal)
    ensures PortalMounter(portal) == portal <==> ':' in portal
  {
  }
}
