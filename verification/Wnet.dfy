// The backend-neutral domain types shared by every wifi backend.
module Wnet {
  import opened Text

  datatype SecurityKind = SecOpen | SecPSK | SecEnterprise

  datatype Security = Security(kind: SecurityKind, passphrase: string)

  datatype IPMethod = IPUnspecified | IPAuto | IPManual | IPDisabled

  datatype IPConfig = IPConfig(ipMethod: IPMethod, addresses: seq<string>, gateway: string,
                               dns: seq<string>, dnsSearch: seq<string>)

  const NO_CONFIG := IPConfig(IPUnspecified, [], "", [], [])

  const AUTO_CONFIG := IPConfig(IPAuto, [], "", [], [])

  // A profile id is the UUIDv5 (RFC 9562, section 5.5) of a byte string. Two ids
  // are taken to be equal only when their byte strings are: the hash is assumed
  // free of collisions, so the id simply wraps its preimage.
  datatype ProfileId = UuidV5(preimage: string)

  datatype Profile = Profile(id: ProfileId, name: string, ssid: string, hidden: bool, autoconnect: bool,
                             security: Security, ipv4: IPConfig, ipv6: IPConfig)

  // An address family may be absent.
  datatype ProfileSpec = ProfileSpec(name: string, ssid: string, hidden: bool, autoconnect: bool,
                                     security: Security, ipv4: Option<IPConfig>, ipv6: Option<IPConfig>)

  datatype ProfilePatch = ProfilePatch(ssid: Option<string>, hidden: Option<bool>, autoconnect: Option<bool>,
                                       security: Option<Security>, ipv4: Option<IPConfig>, ipv6: Option<IPConfig>)

  const EMPTY_PATCH := ProfilePatch(None, None, None, None, None, None)

  datatype Error = NotFound | Unsupported | Invalid | Remote

  datatype Result<+T> = Ok(value: T) | Err(error: Error)

  datatype ConnState =
    | Unspecified
    | Idle
    | Associating
    | Authenticating
    | Configuring
    | Connected
    | Failed
    | Disconnecting

  datatype ConnError = NoError | UnknownError | AuthFailed

  // The coarse security tag, shared by the file types of iwd and the ids of ubus.
  function SecType(k: SecurityKind): string {
    match k
    case SecPSK => "psk"
    case SecEnterprise => "8021x"
    case SecOpen => "open"
  }

  // DeriveID joins its two parts with a zero byte before hashing.
  function DeriveID(ssid: string, typ: string): ProfileId {
    UuidV5(ssid + "\0" + typ)
  }

  // The zero byte makes the join unambiguous even for an SSID that contains one,
  // because the type never does.
  lemma DeriveIDInjective(s1: string, k1: SecurityKind, s2: string, k2: SecurityKind)
    ensures DeriveID(s1, SecType(k1)) == DeriveID(s2, SecType(k2)) <==> s1 == s2 && k1 == k2
  {
    if DeriveID(s1, SecType(k1)) == DeriveID(s2, SecType(k2)) {
      var a, b := s1 + "\0" + SecType(k1), s2 + "\0" + SecType(k2);
      assert a == b;
      assert a[|a| - 1] == SecType(k1)[|SecType(k1)| - 1];
      assert b[|b| - 1] == SecType(k2)[|SecType(k2)| - 1];
      assert k1 == k2;
      assert a[..|s1|] == s1 && b[..|s2|] == s2;
    }
  }
}
