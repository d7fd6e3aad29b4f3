/**
 * The distribution index of `distromanager.js`: the `Required` and `Server`
 * records read from the distribution JSON, the `DistroIndex` object with
 * its server list and main server, and the module's developer-mode toggle
 * and current index. JSON values are modelled as records whose absent or
 * `null` members are `None`; fetching the JSON is left out.
 */
module DistroManager {
  import opened JsRuntime

  // ---------------------------------------------------------------------
  // Required

  /** The members of a `required` JSON object that `fromJSON` reads. */
  datatype RequiredJson = RequiredJson(value: Option<bool>, def: Option<bool>)

  /** Whether a module is required, and whether it is enabled by default. */
  datatype Required = Required(value: bool, default: bool)
  {
    function IsDefault(): bool { default }
    function IsRequired(): bool { value }
  }

  /**
   * `Required.fromJSON(json)`: a missing object, or a missing or `null`
   * member, means `true`; a member is `false` only when the JSON says so.
   */
  function RequiredFromJson(json: Option<RequiredJson>): (r: Required)
    ensures json.None? ==> r == Required(true, true)
    ensures !r.IsRequired() <==> json.Some? && json.value.value == Some(false)
    ensures !r.IsDefault() <==> json.Some? && json.value.def == Some(false)
  {
    match json
    case None => Required(true, true)
    case Some(j) => Required(j.value.GetOr(true), j.def.GetOr(true))
  }

  // ---------------------------------------------------------------------
  // Server

  /** The `loadder` member of a server entry. */
  datatype Loader = Loader(minecraftVersion: Option<string>)

  /**
   * A server: `Object.assign(new Server(), json)` copies the entry's
   * members, so a server is its JSON entry.
   */
  datatype Server = Server(
    name: Option<string>,
    displayName: Option<string>,
    description: Option<string>,
    icon: Option<string>,
    version: Option<string>,
    address: Option<string>,
    loadder: Option<Loader>,
    mainServer: Option<bool>,
    autoconnect: Option<bool>,
    id: Option<string>)
  {
    function GetID(): Option<string> { name }
    function GetName(): Option<string> { displayName }
    function GetDescription(): Option<string> { description }
    function GetIcon(): Option<string> { icon }
    function GetVersion(): Option<string> { version }
    function GetAddress(): Option<string> { address }
    function IsMainServer(): Option<bool> { mainServer }
    function IsAutoConnect(): Option<bool> { autoconnect }

    /** `this.loadder.minecraft_version`: throws when the entry has no `loadder`. */
    function GetMinecraftVersion(): (r: Result<Option<string>, TypeError>)
      ensures r.Err? <==> loadder.None?
      ensures r.Ok? ==> r.value == loadder.value.minecraftVersion
    {
      match loadder
      case None => Err(ReadOfUndefined)
      case Some(l) => Ok(l.minecraftVersion)
    }
  }

  /** A server built from `undefined`: every member is absent. */
  const EmptyServer: Server := Server(None, None, None, None, None, None, None, None, None, None)

  /** `Server.fromJSON(json)` */
  function ServerFromJson(json: Option<Server>): Server {
    json.GetOr(EmptyServer)
  }

  /** `serv.mainServer` is truthy. */
  predicate Flagged(s: Server) {
    s.mainServer == Some(true)
  }

  /** `serv.name === id`, where `undefined === undefined` holds. */
  predicate Named(s: Server, id: Option<string>) {
    s.name == id
  }

  // ---------------------------------------------------------------------
  // The specification of the index

  /** The distribution JSON: `json.servers` lists names, and `json[name]` is each server entry. */
  datatype DistroJson = DistroJson(
    version: Option<string>,
    rss: Option<string>,
    servers: seq<string>,
    entries: map<string, Server>)

  /** `data[name]`: absent keys read as `undefined`. */
  function Entry(entries: map<string, Server>, name: string): Option<Server> {
    if name in entries then Some(entries[name]) else None
  }

  /** The servers `_resolveServers` builds: one per listed name, in order. */
  function ResolvedServers(entries: map<string, Server>, names: seq<string>): (r: seq<Server>)
    ensures |r| == |names|
  {
    seq(|names|, i requires 0 <= i < |names| => ServerFromJson(Entry(entries, names[i])))
  }

  /** The index of the first flagged server, or the length when none is flagged. */
  function FirstFlagged(servers: seq<Server>): (i: nat)
    ensures i <= |servers|
    ensures i < |servers| ==> Flagged(servers[i])
    ensures forall k :: 0 <= k < i ==> !Flagged(servers[k])
    decreases |servers|
  {
    if servers == [] || Flagged(servers[0]) then 0
    else
      var j := FirstFlagged(servers[1..]);
      assert forall k :: 1 <= k < j + 1 ==> servers[k] == servers[1..][k - 1];
      j + 1
  }

  /** The index of the first server with this name, or the length when none has it. */
  function FirstNamed(servers: seq<Server>, id: Option<string>): (i: nat)
    ensures i <= |servers|
    ensures i < |servers| ==> Named(servers[i], id)
    ensures forall k :: 0 <= k < i ==> !Named(servers[k], id)
    decreases |servers|
  {
    if servers == [] || Named(servers[0], id) then 0
    else
      var j := FirstNamed(servers[1..], id);
      assert forall k :: 1 <= k < j + 1 ==> servers[k] == servers[1..][k - 1];
      j + 1
  }

  /** `mainServer` after `_resolveMainServer`. */
  function MainServerOf(servers: seq<Server>): Option<string> {
    var k := FirstFlagged(servers);
    if k < |servers| then servers[k].id
    else if |servers| > 0 then servers[0].GetID()
    else None
  }

  /** `getServer(id)`; `None` is `null`. */
  function FindServer(servers: seq<Server>, id: Option<string>): Option<Server> {
    var k := FirstNamed(servers, id);
    if k < |servers| then Some(servers[k]) else None
  }

  /** `getMainServer()` */
  function MainServer(servers: seq<Server>, mainServer: Option<string>): Option<Server> {
    if mainServer.None? then None else FindServer(servers, mainServer)
  }

  // ---------------------------------------------------------------------
  // What the index promises

  /**
   * Entry `i` of the resolved list is the JSON entry the name points at,
   * with its getters reading its members; a name with no entry gives a
   * server whose getters all read `undefined` and whose Minecraft version
   * throws.
   */
  lemma ResolvedServerGetters(entries: map<string, Server>, names: seq<string>, i: nat)
    requires i < |names|
    ensures names[i] in entries ==> ResolvedServers(entries, names)[i] == entries[names[i]]
    ensures names[i] in entries ==>
      ResolvedServers(entries, names)[i].GetID() == entries[names[i]].name &&
      ResolvedServers(entries, names)[i].GetAddress() == entries[names[i]].address
    ensures names[i] !in entries ==>
      var s := ResolvedServers(entries, names)[i];
      s.GetID().None? && s.GetName().None? && s.GetDescription().None? && s.GetIcon().None? &&
      s.GetVersion().None? && s.GetAddress().None? && s.IsMainServer().None? && s.IsAutoConnect().None? &&
      s.GetMinecraftVersion().Err?
  {
  }

  /** `getServer` answers the first server with the name, and `null` only when none has it. */
  lemma FindServerFirst(servers: seq<Server>, id: Option<string>)
    ensures FindServer(servers, id).None? <==> forall s :: s in servers ==> !Named(s, id)
    ensures FindServer(servers, id).Some? ==>
      exists i :: 0 <= i < |servers| && servers[i] == FindServer(servers, id).value && Named(servers[i], id) &&
        forall k :: 0 <= k < i ==> !Named(servers[k], id)
  {
    var k := FirstNamed(servers, id);
    if k == |servers| {
      forall s | s in servers ensures !Named(s, id) {
        var j :| 0 <= j < |servers| && servers[j] == s;
      }
    } else {
      assert servers[k] in servers;
    }
  }

  /**
   * The main server: the `id` of the first flagged server; with none
   * flagged, the name of the first server, or `null` for an empty list.
   */
  lemma MainServerChoice(servers: seq<Server>)
    ensures (forall s :: s in servers ==> !Flagged(s)) ==>
      MainServerOf(servers) == (if |servers| > 0 then servers[0].name else None)
    ensures forall i :: 0 <= i < |servers| && Flagged(servers[i]) && (forall k :: 0 <= k < i ==> !Flagged(servers[k])) ==>
      MainServerOf(servers) == servers[i].id
  {
    var k := FirstFlagged(servers);
    if k < |servers| {
      assert servers[k] in servers;
    }
  }

  /**
   * With no server flagged, `getMainServer` finds a server that bears the
   * first server's name, unless that server has no name at all.
   */
  lemma UnflaggedMainServerFound(servers: seq<Server>)
    requires |servers| > 0 && servers[0].name.Some?
    requires forall s :: s in servers ==> !Flagged(s)
    ensures MainServer(servers, MainServerOf(servers)) == Some(servers[0])
  {
    MainServerChoice(servers);
  }

  /**
   * A flagged server is looked up by its `id` but found by `name`: when no
   * server bears that name, `getMainServer` answers `null`.
   */
  lemma FlaggedIdNotAName(servers: seq<Server>, i: nat)
    requires i < |servers| && Flagged(servers[i]) && forall k :: 0 <= k < i ==> !Flagged(servers[k])
    requires forall s :: s in servers ==> !Named(s, servers[i].id)
    ensures MainServer(servers, MainServerOf(servers)) == None
  {
    MainServerChoice(servers);
    FindServerFirst(servers, servers[i].id);
  }

  /** Whatever `getMainServer` answers bears the main server's name. */
  lemma MainServerNamed(servers: seq<Server>)
    ensures MainServer(servers, MainServerOf(servers)).Some? ==>
      MainServer(servers, MainServerOf(servers)).value in servers &&
      MainServer(servers, MainServerOf(servers)).value.name == MainServerOf(servers)
  {
    var m := MainServerOf(servers);
    if m.Some? && FindServer(servers, m).Some? {
      assert servers[FirstNamed(servers, m)] in servers;
    }
  }

  /**
   * When every entry is named by its own key, `getServer(name)` on the
   * resolved list answers that name's entry for every listed name.
   */
  lemma ResolvedLookup(entries: map<string, Server>, names: seq<string>, n: string)
    requires forall key :: key in entries ==> entries[key].name == Some(key)
    requires n in names && n in entries
    ensures FindServer(ResolvedServers(entries, names), Some(n)) == Some(entries[n])
  {
    var servers := ResolvedServers(entries, names);
    var j :| 0 <= j < |names| && names[j] == n;
    assert Named(servers[j], Some(n));
    var k := FirstNamed(servers, Some(n));
    assert k <= j;
    assert servers[k] == ServerFromJson(Entry(entries, names[k]));
    assert names[k] == n;
  }

  // ---------------------------------------------------------------------
  // The index object

  class DistroIndex {
    var version: Option<string>
    var rss: Option<string>
    var servers: seq<Server>
    var mainServer: Option<string>

    /** `DistroIndex.fromJSON(json)`: copy the members, then resolve the servers and the main server. */
    constructor FromJson(json: DistroJson)
      ensures version == json.version && rss == json.rss
      ensures servers == ResolvedServers(json.entries, json.servers)
      ensures mainServer == MainServerOf(servers)
    {
      version := json.version;
      rss := json.rss;
      servers := [];
      mainServer := None;
      new;
      ResolveServers(json.entries, json.servers);
      ResolveMainServer();
    }

    /** `_resolveServers(data, json)`: one server per listed name, in order. */
    method ResolveServers(entries: map<string, Server>, names: seq<string>)
      modifies this
      ensures servers == ResolvedServers(entries, names)
      ensures version == old(version) && rss == old(rss) && mainServer == old(mainServer)
    {
      var arr: seq<Server> := [];
      for i := 0 to |names|
        invariant arr == ResolvedServers(entries, names[..i])
      {
        arr := arr + [ServerFromJson(Entry(entries, names[i]))];
        assert names[..i + 1][..i] == names[..i];
      }
      assert names[..|names|] == names;
      servers := arr;
    }

    /** `_resolveMainServer()`: the first flagged server's `id`, else the first server's name, else `null`. */
    method ResolveMainServer()
      modifies this
      ensures mainServer == MainServerOf(servers)
      ensures servers == old(servers) && version == old(version) && rss == old(rss)
    {
      for i := 0 to |servers|
        invariant forall k :: 0 <= k < i ==> !Flagged(servers[k])
      {
        if servers[i].mainServer == Some(true) {
          assert FirstFlagged(servers) == i;
          mainServer := servers[i].id;
          return;
        }
      }
      mainServer := if |servers| > 0 then servers[0].GetID() else None;
    }

    function GetVersion(): Option<string>
      reads this
    {
      version
    }

    function GetRss(): Option<string>
      reads this
    {
      rss
    }

    function GetServers(): seq<Server>
      reads this
    {
      servers
    }

    /** `getServer(id)`: the first server whose name is `id`, or `null`. */
    method GetServer(id: Option<string>) returns (r: Option<Server>)
      ensures r == FindServer(servers, id)
    {
      for i := 0 to |servers|
        invariant forall k :: 0 <= k < i ==> !Named(servers[k], id)
      {
        if servers[i].name == id {
          assert FirstNamed(servers, id) == i;
          return Some(servers[i]);
        }
      }
      return None;
    }

    /** `getMainServer()` */
    method GetMainServer() returns (r: Option<Server>)
      ensures r == MainServer(servers, mainServer)
    {
      if mainServer.Some? {
        r := GetServer(mainServer);
      } else {
        r := None;
      }
    }
  }

  // ---------------------------------------------------------------------
  // The module's state

  /** The module-level `DEV_MODE` flag and the current index `data`. */
  class Distribution {
    var devMode: bool
    var data: Option<DistroIndex>

    /** Loading the module: developer mode off, no index. */
    constructor ()
      ensures !devMode && data == None
    {
      devMode := false;
      data := None;
    }

    /** `setDevMode(value)`; the log lines are left out. */
    method SetDevMode(value: bool)
      modifies this
      ensures devMode == value && data == old(data)
    {
      devMode := value;
    }

    /** `isDevMode()` */
    method IsDevMode() returns (r: bool)
      ensures r == devMode
    {
      r := devMode;
    }

    /** `pullRemote()` once the JSON has arrived: the index built from it becomes `data`. */
    method PullRemote(json: DistroJson) returns (index: DistroIndex)
      modifies this
      ensures fresh(index) && data == Some(index) && devMode == old(devMode)
      ensures index.version == json.version && index.rss == json.rss
      ensures index.servers == ResolvedServers(json.entries, json.servers)
      ensures index.mainServer == MainServerOf(index.servers)
    {
      index := new DistroIndex.FromJson(json);
      data := Some(index);
    }

    /** `getDistribution()` */
    method GetDistribution() returns (r: Option<DistroIndex>)
      ensures r == data
    {
      r := data;
    }
  }
}
