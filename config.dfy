/**
  Start-up configuration: which registry backend the type tag selects, and
  the base path every service key is stored under, made to end in `/`.
 */
module Config {
  import opened Wrappers
  import opened Strings

  /** The registry backends the program knows. */
  datatype RegistryKind = ZooKeeper | Etcd | Consul

  /** Configuration: the fields config.json is decoded into. */
  datatype Configuration = Configuration(
    registryType: Bytes,
    registryUrl: Bytes,
    serviceBaseUrl: Bytes,
    host: Bytes,
    port: int,
    user: Bytes,
    password: Bytes)

  /** Configuration{}: every field at Go's zero value. */
  const Zero: Configuration := Configuration([], [], [], [], 0, [], [])

  /** "zookeeper" */
  const ZooKeeperTag: Bytes := [122, 111, 111, 107, 101, 101, 112, 101, 114]
  /** "etcd" */
  const EtcdTag: Bytes := [101, 116, 99, 100]
  /** "consul" */
  const ConsulTag: Bytes := [99, 111, 110, 115, 117, 108]

  /** The type tag that names a backend in config.json. */
  function Tag(kind: RegistryKind): Bytes
  {
    match kind
    case ZooKeeper => ZooKeeperTag
    case Etcd => EtcdTag
    case Consul => ConsulTag
  }

  /** The switch on RegistryType: the backend a tag names, or None for an unsupported tag. */
  function SelectRegistry(tag: Bytes): (r: Option<RegistryKind>)
    ensures r.Some? <==> tag == ZooKeeperTag || tag == EtcdTag || tag == ConsulTag
    ensures r.Some? ==> Tag(r.value) == tag
  {
    if tag == ZooKeeperTag then Some(ZooKeeper)
    else if tag == EtcdTag then Some(Etcd)
    else if tag == ConsulTag then Some(Consul)
    else None
  }

  /** Each backend is selected by its own tag, and by no other. */
  lemma SelectTag(kind: RegistryKind, tag: Bytes)
    ensures SelectRegistry(tag) == Some(kind) <==> tag == Tag(kind)
  {
    assert ZooKeeperTag != EtcdTag && ZooKeeperTag != ConsulTag && EtcdTag != ConsulTag by {
      assert ZooKeeperTag[0] != EtcdTag[0] && ZooKeeperTag[0] != ConsulTag[0] && EtcdTag[0] != ConsulTag[0];
    }
  }

  /** The base path with a `/` appended unless it already ends in one. */
  function NormalizeBaseUrl(p: Bytes): (r: Bytes)
    ensures HasSuffix(r, [Slash])
    ensures HasSuffix(p, [Slash]) ==> r == p
    ensures !HasSuffix(p, [Slash]) ==> |r| == |p| + 1 && HasPrefix(r, p)
  {
    if HasSuffix(p, [Slash]) then p
    else
      var r := p + [Slash];
      assert r[..|p|] == p;
      r
  }

  /** Normalising twice is normalising once. */
  lemma NormalizeIdempotent(p: Bytes)
    ensures NormalizeBaseUrl(NormalizeBaseUrl(p)) == NormalizeBaseUrl(p)
  {
  }

  /** What reading config.json gave: an error, or the configuration json.Unmarshal decoded from it. */
  datatype ReadResult = ReadFailed | Read(decoded: Configuration)

  /** How start-up ends: the process exits with a code, or runs with a configuration and a backend. */
  datatype Startup = Exit(code: int) | Running(config: Configuration, registry: RegistryKind)

  /**
    The start-up rules: a failed read exits with 1 before anything is
    decoded, an unsupported type tag exits with 2, and otherwise the
    program runs with the tag's backend and the base path normalised.
   */
  function Boot(read: ReadResult): (s: Startup)
    ensures s == Exit(1) <==> read.ReadFailed?
    ensures s == Exit(2) <==> read.Read? && SelectRegistry(read.decoded.registryType).None?
    ensures s.Exit? ==> s.code == 1 || s.code == 2
    ensures s.Running? ==>
      && read.Read?
      && s.config == read.decoded.(serviceBaseUrl := NormalizeBaseUrl(read.decoded.serviceBaseUrl))
      && HasSuffix(s.config.serviceBaseUrl, [Slash])
      && Tag(s.registry) == read.decoded.registryType
  {
    match read
    case ReadFailed => Exit(1)
    case Read(c) =>
      match SelectRegistry(c.registryType)
      case None => Exit(2)
      case Some(kind) => Running(c.(serviceBaseUrl := NormalizeBaseUrl(c.serviceBaseUrl)), kind)
  }

  /**
    The package state LoadConfig fills in: ServerConfig, Reg (None while
    it is nil) and whether Reg.InitRegistry has been called.
   */
  class Process {
    var serverConfig: Configuration
    var reg: Option<RegistryKind>
    var initialized: bool

    /** The package variables before init runs: a zero Configuration and a nil Reg. */
    constructor ()
      ensures serverConfig == Zero && reg == None && !initialized
    {
      serverConfig := Zero;
      reg := None;
      initialized := false;
    }

    /**
      LoadConfig, with the file read done by the caller. Some(code) is the
      code it exits with; None means it returned with the registry initialised.
     */
    method LoadConfig(read: ReadResult) returns (exit: Option<int>)
      modifies this
      ensures exit.Some? <==> Boot(read).Exit?
      ensures exit.Some? ==> exit.value == Boot(read).code
      ensures read.ReadFailed? ==> serverConfig == old(serverConfig) && reg == old(reg) && initialized == old(initialized)
      ensures Boot(read) == Exit(2) ==> serverConfig == read.decoded && reg == old(reg) && initialized == old(initialized)
      ensures Boot(read).Running? ==>
        serverConfig == Boot(read).config && reg == Some(Boot(read).registry) && initialized
    {
      if read.ReadFailed? {
        return Some(1);
      }
      serverConfig := read.decoded;
      var kind := SelectRegistry(serverConfig.registryType);
      if kind.None? {
        return Some(2);
      }
      reg := kind;
      serverConfig := serverConfig.(serviceBaseUrl := NormalizeBaseUrl(serverConfig.serviceBaseUrl));
      initialized := true;
      exit := None;
    }
  }
}
