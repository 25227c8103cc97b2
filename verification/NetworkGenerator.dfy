/** Generation of the foreign-server network from one random stream (sim/network.ts). */
module NetworkGenerator {
  import opened Collections
  import opened JsArithmetic
  import opened ServerTree
  import opened Wrappers

  const LAYERS := 15

  /** The random stream: each draw takes the next value, and a finite stream may end. */
  class Rng {
    const values: seq<real>
    var cursor: nat

    constructor (values: seq<real>)
      ensures this.values == values && cursor == 0
    {
      this.values, cursor := values, 0;
    }

    method Draw() returns (r: Option<real>)
      modifies this
      ensures r.Some? <==> old(cursor) < |values|
      ensures cursor == if r.Some? then old(cursor) + 1 else old(cursor)
      ensures r.Some? ==> r.value == values[old(cursor)]
    {
      if |values| <= cursor { return None; }
      r := Some(values[cursor]);
      cursor := cursor + 1;
    }
  }

  /** Draws lie in [0, 1). */
  ghost predicate UnitDraws(rng: Rng) {
    forall i | 0 <= i < |rng.values| :: 0.0 <= rng.values[i] < 1.0
  }

  datatype Range = Range(min: int, max: int)

  datatype Field = Field(range: Option<Range>, randomized: bool, fallback: int)

  /** One row of the server table: the rolled statistics in order, then the layer. */
  datatype Metadata = Metadata(host: string, stats: seq<Field>, layer: Field)

  datatype Host = Host(hostname: string, ip: string, stats: seq<int>, coreLayer: int, cores: int, layer: int)

  function RandomInt(r: real, range: Range): int {
    (r * (range.max - range.min + 1) as real + range.min as real).Floor
  }

  /** A draw lands in its range, ends included. */
  lemma RandomIntInRange(r: real, range: Range)
    requires 0.0 <= r < 1.0 && range.min <= range.max
    ensures range.min <= RandomInt(r, range) <= range.max
  {
    var n := (range.max - range.min + 1) as real;
    Scaled(r, n);
    assert r * n + range.min as real < n + range.min as real;
  }

  predicate InField(v: int, field: Field) {
    if field.range.None? then v == field.fallback
    else if field.randomized then field.range.value.min <= v <= field.range.value.max
    else v == field.range.value.min
  }

  predicate Ordered(field: Field) {
    field.range.Some? ==> field.range.value.min <= field.range.value.max
  }

  /** What the server table promises: ordered ranges, layers from 0 to 15, distinct names, none reserved. */
  ghost predicate SoundTable(table: seq<Metadata>) {
    && (forall m <- table :: (forall f <- m.stats :: Ordered(f)) && Ordered(m.layer))
    && (forall m <- table, v | InField(v, m.layer) :: 0 <= v <= LAYERS)
    && (forall i, j | 0 <= i < j < |table| :: table[i].host != table[j].host)
    && (forall m <- table :: m.host != "home" && m.host != "darkweb")
  }

  // ---------- one host from the stream ----------

  // What a position of the stream makes, with the position after it; nothing when the stream ends first.

  function ValueFrom(values: seq<real>, at: nat, field: Field): Option<(int, nat)> {
    if field.range.None? then Some((field.fallback, at))
    else if !field.randomized then Some((field.range.value.min, at))
    else if |values| <= at then None
    else Some((RandomInt(values[at], field.range.value), at + 1))
  }

  function StatsFrom(values: seq<real>, at: nat, fields: seq<Field>): Option<(seq<int>, nat)> {
    if fields == [] then Some(([], at))
    else
      var before := StatsFrom(values, at, fields[..|fields| - 1]);
      if before.None? then None
      else
        var last := ValueFrom(values, before.value.1, fields[|fields| - 1]);
        if last.None? then None else Some((before.value.0 + [last.value.0], last.value.1))
  }

  /** The first address from `at` on that is not taken. */
  function IpFrom(values: seq<real>, at: nat, ipOf: real -> string, taken: set<string>): Option<(string, nat)>
    decreases |values| - at
  {
    if |values| <= at then None
    else if ipOf(values[at]) in taken then IpFrom(values, at + 1, ipOf, taken)
    else Some((ipOf(values[at]), at + 1))
  }

  /** One core below layer one, else half the rolled layer to all of it. */
  function CoresFrom(values: seq<real>, at: nat, coreLayer: int): Option<(int, nat)> {
    ValueFrom(values, at, Field(if 0 < coreLayer then Some(Range((coreLayer + 1) / 2, coreLayer)) else None, true, 1))
  }

  /** Address, statistics, the layer that gives the cores, the cores, and the layer again for the place. */
  function HostFrom(values: seq<real>, at: nat, ipOf: real -> string, m: Metadata, taken: set<string>):
      Option<(Host, nat)>
  {
    var ip := IpFrom(values, at, ipOf, taken);
    if ip.None? then None else
    var stats := StatsFrom(values, ip.value.1, m.stats);
    if stats.None? then None else
    var coreLayer := ValueFrom(values, stats.value.1, m.layer);
    if coreLayer.None? then None else
    var cores := CoresFrom(values, coreLayer.value.1, coreLayer.value.0);
    if cores.None? then None else
    var layer := ValueFrom(values, cores.value.1, m.layer);
    if layer.None? then None else
    Some((Host(m.host, ip.value.0, stats.value.0, coreLayer.value.0, cores.value.0, layer.value.0), layer.value.1))
  }

  /** What a method returned is what the reference makes, and the stream stands where it should. */
  ghost predicate Made<T>(result: Option<T>, cursor: nat, reference: Option<(T, nat)>) {
    match result
    case None => reference.None?
    case Some(v) => reference == Some((v, cursor))
  }

  method RolledValue(rng: Rng, field: Field) returns (v: Option<int>)
    requires UnitDraws(rng) && Ordered(field)
    modifies rng
    ensures v.Some? ==> InField(v.value, field)
    ensures Made(v, rng.cursor, ValueFrom(rng.values, old(rng.cursor), field))
  {
    if field.range.None? { return Some(field.fallback); }
    if !field.randomized { return Some(field.range.value.min); }
    var r := rng.Draw();
    if r.None? { return None; }
    RandomIntInRange(r.value, field.range.value);
    v := Some(RandomInt(r.value, field.range.value));
  }

  method RolledStats(rng: Rng, fields: seq<Field>) returns (stats: Option<seq<int>>)
    requires UnitDraws(rng) && forall f <- fields :: Ordered(f)
    modifies rng
    ensures stats.Some? ==> |stats.value| == |fields|
    ensures stats.Some? ==> forall i | 0 <= i < |fields| :: InField(stats.value[i], fields[i])
    ensures Made(stats, rng.cursor, StatsFrom(rng.values, old(rng.cursor), fields))
  {
    hide InField, ValueFrom;
    var rolled: seq<int> := [];
    for i := 0 to |fields|
      invariant |rolled| == i && forall k | 0 <= k < i :: InField(rolled[k], fields[k])
      invariant StatsFrom(rng.values, old(rng.cursor), fields[..i]) == Some((rolled, rng.cursor))
    {
      assert fields[..i + 1][..i] == fields[..i];
      assert fields[i] in fields;
      var v := RolledValue(rng, fields[i]);
      if v.None? {
        ShortOfStats(rng.values, old(rng.cursor), fields, i + 1);
        return None;
      }
      rolled := rolled + [v.value];
    }
    assert fields[..|fields|] == fields;
    stats := Some(rolled);
  }

  lemma {:induction false} ShortOfStats(values: seq<real>, at: nat, fields: seq<Field>, n: nat)
    requires n <= |fields| && StatsFrom(values, at, fields[..n]).None?
    ensures StatsFrom(values, at, fields).None?
    decreases |fields| - n
  {
    if n < |fields| {
      assert fields[..n + 1][..n] == fields[..n];
      ShortOfStats(values, at, fields, n + 1);
    } else {
      assert fields[..n] == fields;
    }
  }

  /** Draw addresses until one is new. */
  method NewIp(rng: Rng, ipOf: real -> string, taken: set<string>) returns (ip: Option<string>)
    modifies rng
    ensures ip.Some? ==> ip.value !in taken
    ensures Made(ip, rng.cursor, IpFrom(rng.values, old(rng.cursor), ipOf, taken))
  {
    var r := rng.Draw();
    while r.Some? && ipOf(r.value) in taken
      invariant r.Some? ==> 0 < rng.cursor <= |rng.values| && r.value == rng.values[rng.cursor - 1]
      invariant IpFrom(rng.values, old(rng.cursor), ipOf, taken)
        == if r.Some? then IpFrom(rng.values, rng.cursor - 1, ipOf, taken) else None
      decreases if r.Some? then |rng.values| - rng.cursor + 1 else 0
    {
      r := rng.Draw();
    }
    if r.None? { return None; }
    ip := Some(ipOf(r.value));
  }

  method RollCores(rng: Rng, coreLayer: int) returns (cores: Option<int>)
    requires UnitDraws(rng)
    modifies rng
    ensures cores.Some? ==>
      if 0 < coreLayer then (coreLayer + 1) / 2 <= cores.value <= coreLayer else cores.value == 1
    ensures Made(cores, rng.cursor, CoresFrom(rng.values, old(rng.cursor), coreLayer))
  {
    if coreLayer <= 0 { return Some(1); }
    var r := rng.Draw();
    if r.None? { return None; }
    var range := Range((coreLayer + 1) / 2, coreLayer);
    RandomIntInRange(r.value, range);
    cores := Some(RandomInt(r.value, range));
  }

  /** Cores are rolled from one roll of the layer, the place in the tree from a second. */
  method RollHost(rng: Rng, ipOf: real -> string, m: Metadata, taken: set<string>) returns (host: Option<Host>)
    requires UnitDraws(rng) && (forall f <- m.stats :: Ordered(f)) && Ordered(m.layer)
    requires forall v | InField(v, m.layer) :: 0 <= v <= LAYERS
    modifies rng
    ensures host.Some? ==> host.value.hostname == m.host && host.value.ip !in taken && Rolled(host.value, m)
    ensures Made(host, rng.cursor, HostFrom(rng.values, old(rng.cursor), ipOf, m, taken))
  {
    hide ValueFrom, StatsFrom, IpFrom, CoresFrom, InField;
    var ip := NewIp(rng, ipOf, taken);
    if ip.None? { return None; }
    var stats := RolledStats(rng, m.stats);
    if stats.None? { return None; }
    var coreLayer := RolledValue(rng, m.layer);
    if coreLayer.None? { return None; }
    var cores := RollCores(rng, coreLayer.value);
    if cores.None? { return None; }
    var layer := RolledValue(rng, m.layer);
    if layer.None? { return None; }
    host := Some(Host(m.host, ip.value, stats.value, coreLayer.value, cores.value, layer.value));
  }

  /** A host with the single core of layer one, placed on layer ten: the two rolls are separate. */
  lemma CoresAndPlaceMayDisagree(ipOf: real -> string)
    ensures var m := Metadata("host", [], Field(Some(Range(1, 10)), true, 1));
      HostFrom([0.0, 0.0, 0.0, 0.95], 0, ipOf, m, {}) == Some((Host("host", ipOf(0.0), [], 1, 1, 10), 4))
  {
    assert RandomInt(0.0, Range(1, 10)) == 1;
    assert RandomInt(0.0, Range(1, 1)) == 1;
    assert RandomInt(0.95, Range(1, 10)) == 10;
  }

  predicate Rolled(host: Host, m: Metadata) {
    && host.hostname == m.host && |host.stats| == |m.stats|
    && (forall i | 0 <= i < |m.stats| :: InField(host.stats[i], m.stats[i]))
    && InField(host.coreLayer, m.layer) && InField(host.layer, m.layer)
    && 0 <= host.layer <= LAYERS
    && if 0 < host.coreLayer then (host.coreLayer + 1) / 2 <= host.cores <= host.coreLayer else host.cores == 1
  }

  // ---------- layers ----------

  ghost predicate DistinctNames(hosts: seq<Host>) {
    forall i, j | 0 <= i < j < |hosts| :: hosts[i].hostname != hosts[j].hostname
  }

  ghost predicate DistinctIps(hosts: seq<Host>) {
    forall i, j | 0 <= i < j < |hosts| :: hosts[i].ip != hosts[j].ip
  }

  ghost predicate OnLayer(hosts: seq<Host>, name: string, k: int) {
    exists h <- hosts :: h.hostname == name && h.layer == k + 1
  }

  /** `layers[k]` lists, once each, the hosts rolled onto layer k + 1. */
  ghost predicate Layered(layers: seq<seq<string>>, hosts: seq<Host>) {
    && |layers| == LAYERS
    && (forall k | 0 <= k < LAYERS :: Distinct(layers[k]))
    && forall k, name | 0 <= k < LAYERS :: name in layers[k] <==> OnLayer(hosts, name, k)
  }

  lemma OnLayerGrows(hosts: seq<Host>, host: Host, name: string, k: int)
    ensures OnLayer(hosts + [host], name, k) <==>
      OnLayer(hosts, name, k) || (host.hostname == name && host.layer == k + 1)
  {
    if OnLayer(hosts, name, k) {
      var h :| h in hosts && h.hostname == name && h.layer == k + 1;
      assert h in hosts + [host];
    }
    if host.hostname == name && host.layer == k + 1 {
      assert host in hosts + [host];
    }
  }

  lemma PlaceHost(layers: seq<seq<string>>, hosts: seq<Host>, host: Host)
    requires Layered(layers, hosts) && 0 <= host.layer <= LAYERS && forall h <- hosts :: h.hostname != host.hostname
    ensures host.layer == 0 ==> Layered(layers, hosts + [host])
    ensures 0 < host.layer ==>
      Layered(layers[host.layer - 1 := layers[host.layer - 1] + [host.hostname]], hosts + [host])
  {
    forall k, name ensures OnLayer(hosts + [host], name, k) <==>
      OnLayer(hosts, name, k) || (host.hostname == name && host.layer == k + 1) {
      OnLayerGrows(hosts, host, name, k);
    }
    if 0 < host.layer {
      assert host.hostname !in layers[host.layer - 1];
    }
  }

  method RollHosts(rng: Rng, ipOf: real -> string, table: seq<Metadata>, homeIps: set<string>)
    returns (ended: bool, hosts: seq<Host>, layers: seq<seq<string>>, ips: set<string>)
    requires UnitDraws(rng) && SoundTable(table)
    modifies rng
    ensures !ended ==> |hosts| == |table| && forall i | 0 <= i < |table| :: Rolled(hosts[i], table[i])
    ensures DistinctNames(hosts) && DistinctIps(hosts) && Layered(layers, hosts)
    ensures (forall h <- hosts :: h.ip !in homeIps) && ips == Addresses(hosts, homeIps)
    ensures forall h <- hosts :: 0 <= h.layer <= LAYERS && h.hostname != "home" && h.hostname != "darkweb"
  {
    hosts, layers, ips, ended := [], seq(LAYERS, i => []), homeIps, false;
    for i := 0 to |table|
      invariant RolledSoFar(table, hosts, layers, ips, homeIps, i)
    {
      assert table[i] in table;
      var rolled := RollHost(rng, ipOf, table[i], ips);
      if rolled.None? { return true, hosts, layers, ips; }
      AddHost(table, hosts, layers, ips, homeIps, i, rolled.value);
      hosts, ips := hosts + [rolled.value], ips + {rolled.value.ip};
      if 0 < rolled.value.layer {
        layers := layers[rolled.value.layer - 1 := layers[rolled.value.layer - 1] + [rolled.value.hostname]];
      }
    }
  }

  ghost predicate RolledSoFar(
    table: seq<Metadata>, hosts: seq<Host>, layers: seq<seq<string>>, ips: set<string>, homeIps: set<string>, n: nat)
  {
    && |hosts| == n <= |table| && (forall i | 0 <= i < n :: Rolled(hosts[i], table[i]))
    && DistinctNames(hosts) && DistinctIps(hosts) && Layered(layers, hosts)
    && (forall h <- hosts :: h.ip !in homeIps) && ips == Addresses(hosts, homeIps)
    && forall h <- hosts :: 0 <= h.layer <= LAYERS && h.hostname != "home" && h.hostname != "darkweb"
  }

  lemma AddHost(
    table: seq<Metadata>, hosts: seq<Host>, layers: seq<seq<string>>, ips: set<string>, homeIps: set<string>, n: nat,
      host: Host)
    requires SoundTable(table) && RolledSoFar(table, hosts, layers, ips, homeIps, n) && n < |table|
    requires Rolled(host, table[n]) && host.ip !in ips
    ensures RolledSoFar(
      table, hosts + [host],
      if 0 < host.layer then layers[host.layer - 1 := layers[host.layer - 1] + [host.hostname]] else layers,
      ips + {host.ip}, homeIps, n + 1)
  {
    hide Layered, Rolled, InField, SoundTable;
    RolledHasLayer(host, table[n]);
    TableNames(table, n);
    forall i | 0 <= i < n ensures hosts[i].hostname != host.hostname {
      RolledHasLayer(hosts[i], table[i]);
    }
    NewAddress(hosts, homeIps, host);
    PlaceHost(layers, hosts, host);
  }

  lemma TableNames(table: seq<Metadata>, n: nat)
    requires SoundTable(table) && n < |table|
    ensures table[n].host != "home" && table[n].host != "darkweb"
    ensures forall i | 0 <= i < n :: table[i].host != table[n].host
  {
    assert table[n] in table;
  }

  ghost function Addresses(hosts: seq<Host>, homeIps: set<string>): set<string> {
    homeIps + set h | h in hosts :: h.ip
  }

  lemma NewAddress(hosts: seq<Host>, homeIps: set<string>, host: Host)
    requires host.ip !in Addresses(hosts, homeIps) && DistinctIps(hosts)
    ensures DistinctIps(hosts + [host]) && Addresses(hosts + [host], homeIps) == Addresses(hosts, homeIps) + {host.ip}
  {
    forall i | 0 <= i < |hosts| ensures hosts[i].ip != host.ip {
      assert hosts[i] in hosts;
    }
    assert host in hosts + [host];
    forall h <- hosts ensures h in hosts + [host] {}
  }

  lemma RolledHasLayer(host: Host, m: Metadata)
    requires Rolled(host, m)
    ensures host.hostname == m.host && 0 <= host.layer <= LAYERS
  {
  }

  // ---------- connecting ----------

  /** A layer with hosts above one without. */
  ghost predicate Gap(layers: seq<seq<string>>) {
    exists k | 0 < k < |layers| :: layers[k] != [] && layers[k - 1] == []
  }

  /** No gap among the first `k` layers. */
  ghost predicate Unbroken(layers: seq<seq<string>>, k: nat)
    requires k <= |layers|
  {
    forall j | 0 < j < k :: layers[j] != [] ==> layers[j - 1] != []
  }

  lemma UnbrokenGrows(layers: seq<seq<string>>, k: nat)
    requires k < |layers| && Unbroken(layers, k) && (0 < k && layers[k] != [] ==> layers[k - 1] != [])
    ensures Unbroken(layers, k + 1)
  {
  }

  lemma UnbrokenIsGapless(layers: seq<seq<string>>)
    requires Unbroken(layers, |layers|)
    ensures !Gap(layers)
  {
  }

  lemma GapAt(layers: seq<seq<string>>, k: nat)
    requires 0 < k < |layers| && layers[k] != [] && layers[k - 1] == []
    ensures Gap(layers)
  {
  }

  ghost function Names(hosts: seq<Host>): set<string> {
    set h | h in hosts :: h.hostname
  }

  /** Layers below `k` are connected, and the first `n` hosts of layer `k`. */
  ghost predicate Connected(
    hosts: seq<Host>, layers: seq<seq<string>>, level: map<string, nat>, k: nat, n: nat)
    requires |layers| == LAYERS && k < LAYERS && n <= |layers[k]|
  {
    && (forall name <- level | name != "home" ::
      OnLayer(hosts, name, level[name] as int - 1) && 1 <= level[name] <= k + 1)
    && (forall name <- level | name != "home" && level[name] == k + 1 :: name in layers[k][..n])
    && (forall j, name | 0 <= j < k && name in layers[j] :: name in level && level[name] == j + 1)
    && forall name <- layers[k][..n] :: name in level && level[name] == k + 1
  }

  lemma OneLayer(hosts: seq<Host>, name: string, j: int, k: int)
    requires DistinctNames(hosts) && OnLayer(hosts, name, j) && OnLayer(hosts, name, k)
    ensures j == k
  {
    var g :| g in hosts && g.hostname == name && g.layer == j + 1;
    var h :| h in hosts && h.hostname == name && h.layer == k + 1;
    var a :| 0 <= a < |hosts| && hosts[a] == g;
    var b :| 0 <= b < |hosts| && hosts[b] == h;
  }

  /** The next host of a layer is new to the tree. */
  lemma NextIsNew(hosts: seq<Host>, layers: seq<seq<string>>, level: map<string, nat>, k: nat, n: nat)
    requires DistinctNames(hosts) && Layered(layers, hosts) && k < LAYERS && n < |layers[k]|
    requires Connected(hosts, layers, level, k, n) && forall h <- hosts :: h.hostname != "home"
    ensures layers[k][n] !in level && layers[k][n] in Names(hosts)
  {
    hide Distinct;
    var host := layers[k][n];
    assert host in layers[k];
    assert OnLayer(hosts, host, k);
    if host in level {
      OneLayer(hosts, host, level[host] as int - 1, k);
      NotBefore(layers[k], n);
    }
  }

  lemma NotBefore(names: seq<string>, n: nat)
    requires Distinct(names) && n < |names|
    ensures names[n] !in names[..n]
  {
  }

  lemma ConnectNext(hosts: seq<Host>, layers: seq<seq<string>>, level: map<string, nat>, k: nat, n: nat)
    requires Layered(layers, hosts) && k < LAYERS && n < |layers[k]|
    requires Connected(hosts, layers, level, k, n) && layers[k][n] !in level
    ensures Connected(hosts, layers, level[layers[k][n] := k + 1], k, n + 1)
  {
    var host, later := layers[k][n], level[layers[k][n] := k + 1];
    assert host in layers[k];
    assert layers[k][..n + 1] == layers[k][..n] + [host];
    assert OnLayer(hosts, host, k);
    forall name <- later | name != "home"
      ensures OnLayer(hosts, name, later[name] as int - 1) && 1 <= later[name] <= k + 1 {
      assert name == host || name in level;
    }
  }

  datatype Linked = Linked(topology: Topology) | Orphaned | Exhausted

  /** The name a draw picks from a list: its place is the whole part of the draw times the length. */
  ghost predicate PickedBy(draw: real, names: seq<string>, name: string) {
    exists i: nat :: i < |names| && names[i] == name && i as real <= draw * |names| as real < i as real + 1.0
  }

  /** The parents of the first `n` hosts of a layer: home below, and above the host one layer down that the host's
      own draw picks. */
  ghost predicate Parented(values: seq<real>, from: nat, layers: seq<seq<string>>, k: nat, n: nat,
      parent: map<string, string>)
    requires k < |layers| && n <= |layers[k]| && (0 < k ==> from + n <= |values|)
  {
    forall i: nat | i < n ::
      && layers[k][i] in parent
      && (if k == 0 then parent[layers[k][i]] == "home"
          else PickedBy(values[from + i], layers[k - 1], parent[layers[k][i]]))
  }

  lemma OneParentMore(values: seq<real>, from: nat, layers: seq<seq<string>>, k: nat, n: nat,
      parent: map<string, string>, up: string)
    requires k < |layers| && n < |layers[k]| && (0 < k ==> from + n < |values|)
    requires Parented(values, from, layers, k, n, parent) && layers[k][n] !in parent
    requires if k == 0 then up == "home" else PickedBy(values[from + n], layers[k - 1], up)
    ensures Parented(values, from, layers, k, n + 1, parent[layers[k][n] := up])
  {
    hide PickedBy;
  }

  /** Connect one layer to the layer below it. */
  /** Whoever had a parent keeps it. */
  ghost predicate Kept(parent: map<string, string>, parent': map<string, string>) {
    forall name <- parent :: name in parent' && parent'[name] == parent[name]
  }

  method LinkLayer(
    rng: Rng, hosts: seq<Host>, layers: seq<seq<string>>, k: nat, topology: Topology,
    ghost level: map<string, nat>, ghost parent: map<string, string>)
    returns (r: Linked, ghost level': map<string, nat>, ghost parent': map<string, string>)
    requires UnitDraws(rng) && DistinctNames(hosts) && Layered(layers, hosts) && k < LAYERS == |layers|
    requires forall h <- hosts :: h.hostname != "home"
    requires Tree(topology, level, parent) && Rooted(level, parent) && topology.Keys == {"home"} + Names(hosts)
    requires Connected(hosts, layers, level, k, 0)
    modifies rng
    ensures r.Linked? ==> Tree(r.topology, level', parent') && Rooted(level', parent')
    ensures r.Linked? ==> r.topology.Keys == topology.Keys && Connected(hosts, layers, level', k, |layers[k]|)
    ensures r.Linked? ==> rng.cursor == old(rng.cursor) + (if 0 < k then |layers[k]| else 0)
    ensures old(rng.cursor) <= |rng.values| ==> rng.cursor <= |rng.values|
    ensures r.Linked? && old(rng.cursor) <= |rng.values| ==>
      Parented(rng.values, old(rng.cursor), layers, k, |layers[k]|, parent')
    ensures Kept(parent, parent')
    ensures r.Linked? && 0 < k && layers[k] != [] ==> layers[k - 1] != []
    ensures r.Orphaned? ==> 0 < k && layers[k] != [] && layers[k - 1] == []
  {
    hide Tree, Layered, Connected, DistinctNames, Names, PickedBy, Parented, Rooted;
    var links := topology;
    level', parent' := level, parent;
    if old(rng.cursor) <= |rng.values| { NoParents(rng.values, rng.cursor, layers, k, parent); }
    for n := 0 to |layers[k]|
      invariant rng.cursor == old(rng.cursor) + (if 0 < k then n else 0)
      invariant old(rng.cursor) <= |rng.values| ==> rng.cursor <= |rng.values|
      invariant old(rng.cursor) <= |rng.values| ==> Parented(rng.values, old(rng.cursor), layers, k, n, parent')
      invariant Kept(parent, parent')
      invariant Tree(links, level', parent') && Rooted(level', parent') && links.Keys == {"home"} + Names(hosts)
      invariant Connected(hosts, layers, level', k, n)
      invariant 0 < n && 0 < k ==> layers[k - 1] != []
    {
      var host := layers[k][n];
      NextIsNew(hosts, layers, level', k, n);
      ConnectNext(hosts, layers, level', k, n);
      var up := "home";
      if 0 < k {
        var draw := rng.Draw();
        if draw.None? { return Exhausted, level', parent'; }
        if layers[k - 1] == [] { return Orphaned, level', parent'; }
        var pick := Pick(draw.value, |layers[k - 1]|);
        up := layers[k - 1][pick];
        PicksAt(draw.value, layers[k - 1], pick);
        BelowIsConnected(hosts, layers, level', k, n, up);
      }
      HomeIsLowest(level', parent');
      TreeKeys(links, level', parent');
      ConnectKeepsTree(links, level', parent', host, up);
      RootedGrows(level', parent', host, up);
      if old(rng.cursor) <= |rng.values| {
        OneParentMore(rng.values, old(rng.cursor), layers, k, n, parent', up);
      }
      links := links[host := links[host] + [up]];
      links := links[up := links[up] + [host]];
      level', parent' := level'[host := level'[up] + 1], parent'[host := up];
    }
    r := Linked(links);
  }

  lemma NoParents(values: seq<real>, from: nat, layers: seq<seq<string>>, k: nat, parent: map<string, string>)
    requires k < |layers| && from <= |values|
    ensures Parented(values, from, layers, k, 0, parent)
  {
  }

  lemma PicksAt(draw: real, names: seq<string>, pick: nat)
    requires 0.0 <= draw < 1.0 && pick < |names| && pick == Pick(draw, |names|)
    ensures PickedBy(draw, names, names[pick])
  {
  }

  lemma TreeKeys(topology: Topology, level: map<string, nat>, parent: map<string, string>)
    requires Tree(topology, level, parent)
    ensures parent.Keys <= level.Keys <= topology.Keys
  {
  }

  lemma HomeIsLowest(level: map<string, nat>, parent: map<string, string>)
    requires Rooted(level, parent)
    ensures "home" in level && level["home"] == 0
  {
  }

  lemma RootedGrows(level: map<string, nat>, parent: map<string, string>, host: string, up: string)
    requires Rooted(level, parent) && host !in level && up in level
    ensures Rooted(level[host := level[up] + 1], parent[host := up])
  {
  }

  lemma BelowIsConnected(hosts: seq<Host>, layers: seq<seq<string>>, level: map<string, nat>, k: nat, n: nat,
      up: string)
    requires |layers| == LAYERS && 0 < k < LAYERS && n <= |layers[k]| && Connected(hosts, layers, level, k, n)
    requires up in layers[k - 1]
    ensures up in level && level[up] == k
  {
  }

  function Pick(r: real, count: nat): (i: nat)
    requires 0.0 <= r < 1.0 && 0 < count
    ensures i < count && i as real <= r * count as real < i as real + 1.0
  {
    Scaled(r, count as real);
    var x := r * count as real;
    assert 0.0 <= x < count as real;
    (r * count as real).Floor
  }

  lemma NextLayer(hosts: seq<Host>, layers: seq<seq<string>>, level: map<string, nat>, k: nat)
    requires |layers| == LAYERS && k + 1 < LAYERS && Connected(hosts, layers, level, k, |layers[k]|)
    ensures Connected(hosts, layers, level, k + 1, 0)
  {
    assert layers[k][..|layers[k]|] == layers[k];
    assert layers[k + 1][..0] == [];
    forall name <- level | name != "home" ensures level[name] != k + 2 {
    }
  }

  lemma NothingConnected(hosts: seq<Host>, layers: seq<seq<string>>)
    requires |layers| == LAYERS
    ensures Connected(hosts, layers, map["home" := 0], 0, 0)
  {
    assert layers[0][..0] == [];
  }

  function Unconnected(names: set<string>): Topology {
    map h | h in names :: []
  }

  lemma BareTree(names: set<string>)
    requires "home" in names
    ensures Tree(Unconnected(names), map["home" := 0], map[]) && Rooted(map["home" := 0], map[])
    ensures Unconnected(names).Keys == names
  {
  }

  /** Every host sits on the layer it rolled. */
  ghost predicate OnRolledLayer(hosts: seq<Host>, level: map<string, nat>) {
    && (forall h <- hosts :: 0 < h.layer <==> h.hostname in level)
    && (forall h <- hosts | 0 < h.layer :: h.hostname in level && level[h.hostname] == h.layer)
    && forall name <- level :: name == "home" || name in Names(hosts)
  }

  lemma OwnLayer(hosts: seq<Host>, h: Host, k: int)
    requires DistinctNames(hosts) && h in hosts && OnLayer(hosts, h.hostname, k)
    ensures h.layer == k + 1
  {
    assert OnLayer(hosts, h.hostname, h.layer - 1);
    OneLayer(hosts, h.hostname, h.layer - 1, k);
  }

  lemma AllConnected(hosts: seq<Host>, layers: seq<seq<string>>, level: map<string, nat>)
    requires DistinctNames(hosts) && Layered(layers, hosts)
    requires Connected(hosts, layers, level, LAYERS - 1, |layers[LAYERS - 1]|)
    requires forall h <- hosts :: 0 <= h.layer <= LAYERS && h.hostname != "home"
    ensures OnRolledLayer(hosts, level)
  {
    var top := LAYERS - 1;
    assert layers[top][..|layers[top]|] == layers[top];
    forall h <- hosts ensures 0 < h.layer ==> h.hostname in level && level[h.hostname] == h.layer {
      if 0 < h.layer {
        assert OnLayer(hosts, h.hostname, h.layer - 1);
        assert h.hostname in layers[h.layer - 1];
      }
    }
    forall h <- hosts | h.hostname in level ensures 0 < h.layer {
      OwnLayer(hosts, h, level[h.hostname] as int - 1);
    }
    forall name <- level | name != "home" ensures name in Names(hosts) {
      assert OnLayer(hosts, name, level[name] as int - 1);
    }
  }

  /** The draws taken before layer `k`: none for the first, then one for every host. */
  function Draws(layers: seq<seq<string>>, k: nat): nat
    requires k <= |layers|
  {
    if k <= 1 then 0 else Draws(layers, k - 1) + |layers[k - 1]|
  }

  /** Every host of the first `k` layers has the parent its own draw picks. */
  ghost predicate AllParented(values: seq<real>, from: nat, layers: seq<seq<string>>, k: nat,
      parent: map<string, string>)
    requires k <= |layers|
  {
    forall j: nat | j < k :: ParentedAt(values, from, layers, j, parent)
  }

  ghost predicate ParentedAt(values: seq<real>, from: nat, layers: seq<seq<string>>, j: nat,
      parent: map<string, string>)
    requires j < |layers|
  {
    && (0 < j ==> from + Draws(layers, j) + |layers[j]| <= |values|)
    && Parented(values, from + Draws(layers, j), layers, j, |layers[j]|, parent)
  }

  lemma NobodyParented(values: seq<real>, from: nat, layers: seq<seq<string>>, parent: map<string, string>)
    ensures AllParented(values, from, layers, 0, parent)
  {
  }

  lemma OneLayerMore(values: seq<real>, from: nat, layers: seq<seq<string>>, k: nat, parent: map<string, string>,
      parent': map<string, string>)
    requires k < |layers| && AllParented(values, from, layers, k, parent)
    requires Kept(parent, parent')
    requires ParentedAt(values, from, layers, k, parent')
    ensures AllParented(values, from, layers, k + 1, parent')
  {
    hide PickedBy, Draws;
    forall j: nat | j < k + 1 ensures ParentedAt(values, from, layers, j, parent') {
      if j < k { assert ParentedAt(values, from, layers, j, parent); }
    }
  }

  /** The first `k` layers are linked: a tree, each host below its pick, and no gap. */
  ghost predicate LinkedSoFar(values: seq<real>, from: nat, hosts: seq<Host>, layers: seq<seq<string>>, k: nat,
      topology: Topology, level: map<string, nat>, parent: map<string, string>)
    requires k <= |layers| == LAYERS
  {
    && Tree(topology, level, parent) && Rooted(level, parent) && topology.Keys == {"home"} + Names(hosts)
    && (from <= |values| ==> AllParented(values, from, layers, k, parent))
    && (k < LAYERS ==> Connected(hosts, layers, level, k, 0))
    && Unbroken(layers, k)
  }

  lemma NothingLinked(values: seq<real>, from: nat, hosts: seq<Host>, layers: seq<seq<string>>)
    requires |layers| == LAYERS
    ensures LinkedSoFar(
              values, from, hosts, layers, 0, Unconnected({"home"} + Names(hosts)), map["home" := 0], map[])
  {
    hide Tree, Rooted, Connected, AllParented, Unconnected, Names;
    BareTree({"home"} + Names(hosts));
    NothingConnected(hosts, layers);
    NobodyParented(values, from, layers, map[]);
  }

  lemma LayerLinked(values: seq<real>, from: nat, hosts: seq<Host>, layers: seq<seq<string>>, k: nat,
      topology: Topology, level: map<string, nat>, parent: map<string, string>,
      topology': Topology, level': map<string, nat>, parent': map<string, string>)
    requires |layers| == LAYERS && k < LAYERS && LinkedSoFar(values, from, hosts, layers, k, topology, level, parent)
    requires Tree(topology', level', parent') && Rooted(level', parent') && topology'.Keys == topology.Keys
    requires Connected(hosts, layers, level', k, |layers[k]|) && Kept(parent, parent')
    requires from <= |values| ==> ParentedAt(values, from, layers, k, parent')
    requires 0 < k && layers[k] != [] ==> layers[k - 1] != []
    ensures LinkedSoFar(values, from, hosts, layers, k + 1, topology', level', parent')
  {
    hide Tree, Rooted, Connected, AllParented, ParentedAt, Unbroken, Names, Kept;
    if from <= |values| { OneLayerMore(values, from, layers, k, parent, parent'); }
    UnbrokenGrows(layers, k);
    if k + 1 < LAYERS { NextLayer(hosts, layers, level', k); }
  }

  lemma AllLinked(values: seq<real>, from: nat, hosts: seq<Host>, layers: seq<seq<string>>,
      topology: Topology, level: map<string, nat>, parent: map<string, string>)
    requires |layers| == LAYERS && LinkedSoFar(values, from, hosts, layers, LAYERS, topology, level, parent)
    ensures Tree(topology, level, parent) && Rooted(level, parent) && topology.Keys == {"home"} + Names(hosts)
    ensures from <= |values| ==> AllParented(values, from, layers, LAYERS, parent)
    ensures !Gap(layers)
  {
    hide Tree, Rooted, AllParented, Unbroken, Names, Gap;
    UnbrokenIsGapless(layers);
  }

  /** One layer more. */
  method LinkNext(rng: Rng, hosts: seq<Host>, layers: seq<seq<string>>, k: nat, topology: Topology, ghost from: nat,
      ghost level: map<string, nat>, ghost parent: map<string, string>)
    returns (r: Linked, ghost level': map<string, nat>, ghost parent': map<string, string>)
    requires UnitDraws(rng) && DistinctNames(hosts) && Layered(layers, hosts) && k < LAYERS == |layers|
    requires forall h <- hosts :: 0 <= h.layer <= LAYERS && h.hostname != "home"
    requires LinkedSoFar(rng.values, from, hosts, layers, k, topology, level, parent)
    requires rng.cursor == from + Draws(layers, k) && (from <= |rng.values| ==> rng.cursor <= |rng.values|)
    modifies rng
    ensures r.Linked? ==> LinkedSoFar(rng.values, from, hosts, layers, k + 1, r.topology, level', parent')
    ensures r.Linked? ==> rng.cursor == from + Draws(layers, k + 1)
    ensures r.Linked? && k + 1 == LAYERS ==> OnRolledLayer(hosts, level')
    ensures from <= |rng.values| ==> rng.cursor <= |rng.values|
    ensures r.Orphaned? ==> Gap(layers)
  {
    hide Parented, Tree, Connected, DistinctNames, OnRolledLayer, Rooted, UnitDraws, Layered, AllParented;
    hide Kept, Names, Gap, Unbroken;
    r, level', parent' := LinkLayer(rng, hosts, layers, k, topology, level, parent);
    if r.Orphaned? { GapAt(layers, k); }
    if !r.Linked? { return; }
    LayerLinked(rng.values, from, hosts, layers, k, topology, level, parent, r.topology, level', parent');
    if k + 1 == LAYERS { AllConnected(hosts, layers, level'); }
  }

  method Link(rng: Rng, hosts: seq<Host>, layers: seq<seq<string>>)
    returns (r: Linked, ghost level: map<string, nat>, ghost parent: map<string, string>)
    requires UnitDraws(rng) && DistinctNames(hosts) && Layered(layers, hosts)
    requires forall h <- hosts :: 0 <= h.layer <= LAYERS && h.hostname != "home"
    modifies rng
    ensures r.Linked? ==> Tree(r.topology, level, parent) && Rooted(level, parent) && OnRolledLayer(hosts, level)
    ensures r.Linked? ==> r.topology.Keys == {"home"} + Names(hosts) && !Gap(layers)
    ensures r.Linked? && old(rng.cursor) <= |rng.values| ==>
      AllParented(rng.values, old(rng.cursor), layers, LAYERS, parent)
    ensures r.Orphaned? ==> Gap(layers)
  {
    assert |layers| == LAYERS;
    var names := {"home"} + set h | h in hosts :: h.hostname;
    assert names == {"home"} + Names(hosts);
    hide AllParented, Tree, DistinctNames, OnRolledLayer, Rooted, UnitDraws, Layered, Names, Gap, Unconnected;
    hide LinkedSoFar;
    var topology := Unconnected(names);
    level, parent := map["home" := 0], map[];
    NothingLinked(rng.values, rng.cursor, hosts, layers);
    for k := 0 to LAYERS
      invariant LinkedSoFar(rng.values, old(rng.cursor), hosts, layers, k, topology, level, parent)
      invariant rng.cursor == old(rng.cursor) + Draws(layers, k)
      invariant old(rng.cursor) <= |rng.values| ==> rng.cursor <= |rng.values|
      invariant k == LAYERS ==> OnRolledLayer(hosts, level)
    {
      r, level, parent := LinkNext(rng, hosts, layers, k, topology, old(rng.cursor), level, parent);
      if !r.Linked? { return; }
      topology := r.topology;
    }
    AllLinked(rng.values, old(rng.cursor), hosts, layers, topology, level, parent);
    r := Linked(topology);
  }

  // ---------- the whole generation ----------

  datatype Outcome = Generated(hosts: seq<Host>, darkwebIp: string, topology: Topology) | NoParent | StreamEnded

  ghost predicate LayerGap(hosts: seq<Host>) {
    exists h <- hosts :: 1 < h.layer && forall g <- hosts :: g.layer != h.layer - 1
  }

  lemma HostOnLayer(layers: seq<seq<string>>, hosts: seq<Host>, k: nat) returns (g: Host)
    requires Layered(layers, hosts) && k < LAYERS && layers[k] != []
    ensures g in hosts && g.layer == k + 1
  {
    assert layers[k][0] in layers[k];
    g :| g in hosts && g.hostname == layers[k][0] && g.layer == k + 1;
  }

  lemma GapsAreLayerGaps(layers: seq<seq<string>>, hosts: seq<Host>)
    requires Layered(layers, hosts) && forall h <- hosts :: 0 <= h.layer <= LAYERS
    ensures Gap(layers) <==> LayerGap(hosts)
  {
    if Gap(layers) {
      var k :| 0 < k < |layers| && layers[k] != [] && layers[k - 1] == [];
      assert layers[k][0] in layers[k];
      var h :| h in hosts && h.hostname == layers[k][0] && h.layer == k + 1;
      forall g <- hosts ensures g.layer != h.layer - 1 {
        if g.layer == k { assert OnLayer(hosts, g.hostname, k - 1); }
      }
    }
    if LayerGap(hosts) {
      var h :| h in hosts && 1 < h.layer && forall g <- hosts :: g.layer != h.layer - 1;
      var k := h.layer - 1;
      assert OnLayer(hosts, h.hostname, k);
      assert h.hostname in layers[k];
      if layers[k - 1] != [] {
        var g := HostOnLayer(layers, hosts, k - 1);
      }
    }
  }

  /** On every stream long enough to finish, generation yields a tree whose hosts sit on the layers they rolled,
      with addresses all different, unless some host rolled a layer just above an empty one; then it throws. */
  method GenerateNetwork(rng: Rng, ipOf: real -> string, table: seq<Metadata>, homeIp: string)
    returns (r: Outcome, hosts: seq<Host>, ghost level: map<string, nat>, ghost parent: map<string, string>)
    requires UnitDraws(rng) && SoundTable(table)
    modifies rng
    ensures r.NoParent? ==> LayerGap(hosts)
    ensures r.Generated? ==> r.hosts == hosts && !LayerGap(hosts)
    ensures r.Generated? ==> |hosts| == |table| && forall i | 0 <= i < |table| :: Rolled(hosts[i], table[i])
    ensures r.Generated? ==> Tree(r.topology, level, parent) && Rooted(level, parent) && OnRolledLayer(hosts, level)
    ensures r.Generated? ==> r.topology.Keys == {"home", "darkweb"} + Names(hosts)
    ensures r.Generated? ==> "darkweb" !in level && r.topology["darkweb"] == []
    ensures r.Generated? ==>
      DistinctIps(hosts) && forall h <- hosts :: h.ip != r.darkwebIp && (homeIp != "" ==> h.ip != homeIp)
    ensures r.Generated? && homeIp != "" ==> r.darkwebIp != homeIp
  {
    hide Tree, Layered, DistinctNames, DistinctIps, Rolled, SoundTable, LayerGap, Gap;
    level, parent := map[], map[];
    var homeIps := if homeIp == "" then {} else {homeIp};
    var ended, layers, ips;
    ended, hosts, layers, ips := RollHosts(rng, ipOf, table, homeIps);
    if ended { return StreamEnded, hosts, level, parent; }
    GapsAreLayerGaps(layers, hosts);
    var linked;
    linked, level, parent := Link(rng, hosts, layers);
    if linked.Exhausted? { return StreamEnded, hosts, level, parent; }
    if linked.Orphaned? { return NoParent, hosts, level, parent; }
    var darkwebIp := NewIp(rng, ipOf, ips);
    if darkwebIp.None? { return StreamEnded, hosts, level, parent; }
    NoDarkweb(hosts, linked.topology);
    AddIsolated(linked.topology, level, parent, "darkweb");
    TreeKeys(linked.topology, level, parent);
    r := Generated(hosts, darkwebIp.value, linked.topology["darkweb" := []]);
  }

  lemma NoDarkweb(hosts: seq<Host>, topology: Topology)
    requires topology.Keys == {"home"} + Names(hosts) && forall h <- hosts :: h.hostname != "darkweb"
    ensures "darkweb" !in topology
  {
  }
}
