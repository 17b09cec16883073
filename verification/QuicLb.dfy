/**
 QUIC-LB server ids in connection ids: the 17-byte single-pass encoding of
 draft-ietf-quic-load-balancers-22. AES under a key is a parameter, a permutation of blocks.
 */
module QuicLb {
  import opened Wrappers
  import opened Bytes
  import opened Addresses

  const CID_LEN: nat := 17

  type Block = s: seq<byte> | |s| == 16 witness seq(16, _ => 0)

  datatype Cipher = Cipher(encrypt: Block -> Block, decrypt: Block -> Block) {

    ghost predicate Lawful() {
      forall block: Block :: decrypt(encrypt(block)) == block
    }
  }

  datatype Codec = Codec(configId: byte, cipher: Cipher) {

    /** The length of the rest is written into the low five bits. */
    function Encrypt(plaintext: Block): (cid: seq<byte>)
      requires configId < 7
      ensures |cid| == CID_LEN
    {
      [configId * 32 + 16] + cipher.encrypt(plaintext)
    }

    function Decrypt(cid: seq<byte>): Option<Block> {
      if |cid| != CID_LEN || cid[0] / 32 != configId then None
      else Some(cipher.decrypt(cid[1..]))
    }
  }

  /** An encoded id carries the length of its rest; decoding undoes encoding, whatever those five bits carry. */
  lemma DecryptEncrypted(codec: Codec, plaintext: Block, low: byte)
    requires codec.configId < 7 && codec.cipher.Lawful() && low < 32
    ensures codec.Encrypt(plaintext)[0] % 32 == |codec.Encrypt(plaintext)| - 1
    ensures codec.Decrypt(codec.Encrypt(plaintext)) == Some(plaintext)
    ensures codec.Decrypt(codec.Encrypt(plaintext)[0 := codec.configId * 32 + low]) == Some(plaintext)
  {
    var cid := codec.Encrypt(plaintext);
    assert cid[1..] == codec.cipher.encrypt(plaintext);
    assert cid[0 := codec.configId * 32 + low][1..] == cid[1..];
  }

  datatype LbConfig = LbConfig(codec: Codec, servers: map<nat, SocketAddr>) {

    /** The backend whose server id starts the plaintext of the connection id. */
    function Backend(cid: seq<byte>): Option<SocketAddr> {
      match codec.Decrypt(cid)
      case None => None
      case Some(p) =>
        var id := U32(p[0], p[1], p[2], p[3]);
        if id in servers then Some(servers[id]) else None
    }
  }

  /** The first configuration that maps the connection id to a backend. */
  function Lookup(configs: seq<LbConfig>, cid: seq<byte>): Option<SocketAddr> {
    if configs == [] then None
    else
      match configs[0].Backend(cid)
      case Some(addr) => Some(addr)
      case None => Lookup(configs[1..], cid)
  }

  /** The address is a backend of some configuration. */
  predicate IsServer(configs: seq<LbConfig>, addr: SocketAddr) {
    exists i :: 0 <= i < |configs| && addr in configs[i].servers.Values
  }

  /** What loading a configuration guarantees: ids below 7 and distinct, server addresses normalized. */
  ghost predicate Valid(configs: seq<LbConfig>) {
    (forall c <- configs :: c.codec.configId < 7) &&
    (forall i, j | 0 <= i < j < |configs| :: configs[i].codec.configId != configs[j].codec.configId) &&
    (forall c <- configs, addr :: addr in c.servers.Values ==> Normalize(addr) == addr)
  }

  lemma {:induction false} LookupFinds(configs: seq<LbConfig>, cid: seq<byte>, addr: SocketAddr)
    requires Valid(configs)
    ensures Lookup(configs, cid) == Some(addr) <==> exists c :: c in configs && c.Backend(cid) == Some(addr)
  {
    if configs != [] {
      var first, rest := configs[0], configs[1..];
      assert Valid(rest) by {
        assert forall c <- rest :: c in configs;
      }
      LookupFinds(rest, cid, addr);
      if first.Backend(cid).Some? {
        forall c | c in configs && c.Backend(cid).Some? ensures c == first {
          assert c.codec.configId == cid[0] / 32 == first.codec.configId;
        }
        assert first in configs;
      } else {
        assert forall c :: c in configs <==> c == first || c in rest;
      }
    }
  }

  /** The order in which configurations are tried does not matter. */
  lemma LookupOrderFree(a: seq<LbConfig>, b: seq<LbConfig>, cid: seq<byte>)
    requires Valid(a) && Valid(b) && forall c :: c in a <==> c in b
    ensures Lookup(a, cid) == Lookup(b, cid)
  {
    hide Valid, LbConfig.Backend;
    if Lookup(a, cid).Some? {
      LookupFinds(a, cid, Lookup(a, cid).value);
      LookupFinds(b, cid, Lookup(a, cid).value);
    }
    if Lookup(b, cid).Some? {
      LookupFinds(a, cid, Lookup(b, cid).value);
      LookupFinds(b, cid, Lookup(b, cid).value);
    }
  }

  /** A decoded backend is a normalized server address, and the connection id is a 17-byte one. */
  lemma LookupIsServer(configs: seq<LbConfig>, cid: seq<byte>)
    requires Valid(configs) && Lookup(configs, cid).Some?
    ensures var addr := Lookup(configs, cid).value; IsServer(configs, addr) && Normalize(addr) == addr
    ensures |cid| == CID_LEN && cid[0] / 32 < 7
  {
    var addr := Lookup(configs, cid).value;
    LookupFinds(configs, cid, addr);
    var c :| c in configs && c.Backend(cid) == Some(addr);
    var i :| 0 <= i < |configs| && configs[i] == c;
    assert addr in configs[i].servers.Values;
  }

  /** An id that a configured codec made for a configured server is looked up to that server. */
  lemma EncodedIsFound(configs: seq<LbConfig>, c: LbConfig, plaintext: Block, low: byte)
    requires Valid(configs) && c in configs && c.codec.cipher.Lawful() && low < 32
    requires U32(plaintext[0], plaintext[1], plaintext[2], plaintext[3]) in c.servers
    ensures c.codec.configId < 7 &&
            Lookup(configs, c.codec.Encrypt(plaintext)[0 := c.codec.configId * 32 + low]) ==
            Some(c.servers[U32(plaintext[0], plaintext[1], plaintext[2], plaintext[3])])
  {
    hide Lookup, Cipher.Lawful, U32;
    assert c.codec.configId < 7;
    var cid := c.codec.Encrypt(plaintext)[0 := c.codec.configId * 32 + low];
    DecryptEncrypted(c.codec, plaintext, low);
    LookupFinds(configs, cid, c.servers[U32(plaintext[0], plaintext[1], plaintext[2], plaintext[3])]);
  }

  // ----- loading

  datatype LoadError = BadConfigId | DuplicateConfigId | MissingServerId | DuplicateServerId | NoServers

  /** A configured entry, with its key as a cipher and its server addresses resolved. */
  datatype Entry = Entry(configId: nat, cipher: Cipher, servers: seq<(Option<nat>, SocketAddr)>) {

    ghost predicate Loadable() {
      configId < 7 && servers != [] && Numbered(servers)
    }
  }

  /** Every server has an id of its own. */
  ghost predicate Numbered(servers: seq<(Option<nat>, SocketAddr)>) {
    (forall s <- servers :: s.0.Some?) && forall i, j | 0 <= i < j < |servers| :: servers[i].0 != servers[j].0
  }

  /** The servers by id, their addresses normalized. */
  ghost predicate Lists(servers: seq<(Option<nat>, SocketAddr)>, m: map<nat, SocketAddr>) {
    (forall s <- servers :: s.0.Some? && s.0.value in m && m[s.0.value] == Normalize(s.1)) &&
    forall id <- m :: exists s :: s in servers && s.0 == Some(id)
  }

  ghost predicate Loads(e: Entry, c: LbConfig) {
    c.codec.configId == e.configId && c.codec.cipher == e.cipher && Lists(e.servers, c.servers)
  }

  /** Configuration id 7 is reserved for ids that cannot be routed. */
  function NewCodec(configId: byte, cipher: Cipher): Result<Codec, LoadError> {
    if configId < 7 then Success(Codec(configId, cipher)) else Failure(BadConfigId)
  }

  /** The first server in the way has no id, or one that is taken; or there is no server. */
  ghost predicate ServersFail(servers: seq<(Option<nat>, SocketAddr)>, error: LoadError) {
    match error
    case MissingServerId => exists i :: 0 <= i < |servers| && Numbered(servers[..i]) && servers[i].0.None?
    case DuplicateServerId =>
      exists i, j :: 0 <= j < i < |servers| && Numbered(servers[..i]) && servers[i].0.Some? && servers[j].0 == servers[i].0
    case NoServers => servers == []
    case _ => false
  }

  /** The entries before this one load, and this one fails for its id first and then for its servers. */
  ghost predicate EntryFails(entries: seq<Entry>, i: nat, error: LoadError) {
    i < |entries| && (forall j | 0 <= j < i :: entries[j].Loadable()) &&
    if exists j :: 0 <= j < i && entries[j].configId == entries[i].configId then error == DuplicateConfigId
    else if entries[i].configId >= 7 then error == BadConfigId
    else ServersFail(entries[i].servers, error)
  }

  method LoadServers(servers: seq<(Option<nat>, SocketAddr)>) returns (r: Result<map<nat, SocketAddr>, LoadError>)
    ensures r.Success? <==> servers != [] && Numbered(servers)
    ensures r.Success? ==> Lists(servers, r.value)
    ensures r.Failure? ==> ServersFail(servers, r.error)
  {
    hide Normalize;
    var m: map<nat, SocketAddr> := map[];
    for i := 0 to |servers|
      invariant Numbered(servers[..i]) && Lists(servers[..i], m)
    {
      assert servers[..i + 1] == servers[..i] + [servers[i]];
      var (number, addr) := servers[i];
      if number.None? {
        return Failure(MissingServerId);
      }
      if number.value in m {
        ghost var s :| s in servers[..i] && s.0 == number;
        ghost var j :| 0 <= j < i && servers[j] == s;
        assert servers[j].0 == servers[i].0;
        return Failure(DuplicateServerId);
      }
      m := m[number.value := Normalize(addr)];
    }
    assert servers[..|servers|] == servers;
    if servers == [] {
      return Failure(NoServers);
    }
    r := Success(m);
  }

  /** Loads every entry, or fails; what is loaded is valid. */
  method LoadQuicLb(entries: seq<Entry>) returns (r: Result<seq<LbConfig>, LoadError>)
    ensures r.Success? <==> (forall e <- entries :: e.Loadable()) &&
                            forall i, j | 0 <= i < j < |entries| :: entries[i].configId != entries[j].configId
    ensures r.Success? ==> Valid(r.value) && |r.value| == |entries| &&
                           forall i | 0 <= i < |entries| :: Loads(entries[i], r.value[i])
    ensures r.Failure? ==> exists i :: EntryFails(entries, i, r.error)
  {
    hide Numbered, Lists, ServersFail;
    var configs: seq<LbConfig> := [];
    var ids: set<nat> := {};
    for i := 0 to |entries|
      invariant |configs| == i && ids == (set e | e in entries[..i] :: e.configId)
      invariant forall j | 0 <= j < i :: entries[j].Loadable() && Loads(entries[j], configs[j])
      invariant forall j, k | 0 <= j < k < i :: entries[j].configId != entries[k].configId
    {
      assert entries[..i + 1] == entries[..i] + [entries[i]];
      var e := entries[i];
      assert e in entries;
      if e.configId >= 256 {
        assert EntryFails(entries, i, BadConfigId);
        return Failure(BadConfigId);
      }
      if e.configId in ids {
        ghost var j :| 0 <= j < i && entries[j].configId == e.configId;
        assert EntryFails(entries, i, DuplicateConfigId);
        return Failure(DuplicateConfigId);
      }
      ids := ids + {e.configId};
      var codec := NewCodec(e.configId, e.cipher);
      if codec.Failure? {
        assert EntryFails(entries, i, codec.error);
        return Failure(codec.error);
      }
      var servers := LoadServers(e.servers);
      if servers.Failure? {
        assert EntryFails(entries, i, servers.error);
        return Failure(servers.error);
      }
      configs := configs + [LbConfig(codec.value, servers.value)];
    }
    LoadedIsValid(entries, configs);
    r := Success(configs);
  }

  lemma LoadedIsValid(entries: seq<Entry>, configs: seq<LbConfig>)
    requires |entries| == |configs| && forall i | 0 <= i < |entries| :: entries[i].Loadable() && Loads(entries[i], configs[i])
    requires forall i, j | 0 <= i < j < |entries| :: entries[i].configId != entries[j].configId
    ensures Valid(configs)
  {
    hide Numbered;
    forall i, addr | 0 <= i < |configs| && addr in configs[i].servers.Values ensures Normalize(addr) == addr {
      var id :| id in configs[i].servers && configs[i].servers[id] == addr;
      var s :| s in entries[i].servers && s.0 == Some(id);
      NormalizeKeepsPeer(s.1);
    }
  }
}
