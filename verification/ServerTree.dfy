/** The shape of the foreign-server network: a tree hung from home, and isolated hosts (sim/network.ts). */
module ServerTree {
  import opened Collections

  type Topology = map<string, seq<string>>

  /** Hosts on layers, home on layer zero; each host but home has a parent one layer nearer home, and the
      neighbours of a host are its parent and its children, each listed once. */
  ghost predicate Tree(topology: Topology, level: map<string, nat>, parent: map<string, string>) {
    && level.Keys <= topology.Keys
    && (forall c <- parent :: c in level && parent[c] in level && level[parent[c]] + 1 == level[c])
    && (forall a <- topology :: Distinct(topology[a]))
    && (forall a <- topology, b :: b in topology[a] <==> Joined(parent, a, b))
  }

  predicate Joined(parent: map<string, string>, a: string, b: string) {
    (a in parent && parent[a] == b) || (b in parent && parent[b] == a)
  }

  /** Nobody but home is without a parent. */
  ghost predicate Rooted(level: map<string, nat>, parent: map<string, string>) {
    && "home" in level && level["home"] == 0
    && forall h <- level :: h in parent <==> h != "home"
  }

  /** Being neighbours is mutual. */
  lemma Symmetric(topology: Topology, level: map<string, nat>, parent: map<string, string>, a: string, b: string)
    requires Tree(topology, level, parent) && a in topology && b in topology[a]
    ensures b in topology && a in topology[b]
  {
    assert Joined(parent, a, b);
    assert Joined(parent, b, a);
  }

  /** Exactly one neighbour is nearer home, and every other one is a layer further out. */
  lemma OneNearer(topology: Topology, level: map<string, nat>, parent: map<string, string>, h: string, i: nat)
    requires Tree(topology, level, parent) && Rooted(level, parent) && h in level && h != "home"
    requires i < |topology[h]|
    ensures parent[h] in topology[h] && level[parent[h]] + 1 == level[h]
    ensures var n := topology[h][i]; n in level && level[n] == if n == parent[h] then level[h] - 1 else level[h] + 1
    ensures forall j | 0 <= j < |topology[h]| && topology[h][i] == topology[h][j] :: i == j
  {
    assert Joined(parent, h, parent[h]);
    assert topology[h][i] in topology[h];
  }

  /** Hosts that are on no layer have no neighbours. */
  lemma OffLayerIsIsolated(topology: Topology, level: map<string, nat>, parent: map<string, string>, h: string)
    requires Tree(topology, level, parent) && h in topology && h !in level
    ensures topology[h] == []
  {
    if topology[h] != [] {
      NeighboursAreOnLayers(topology, level, parent, h, topology[h][0]);
    }
  }

  lemma NeighboursAreOnLayers(topology: Topology, level: map<string, nat>, parent: map<string, string>, a: string,
      b: string)
    requires Tree(topology, level, parent) && a in topology && b in topology[a]
    ensures a in level && b in level
  {
    assert Joined(parent, a, b);
  }

  /** The chain of parents from a host to home. */
  ghost function Chain(level: map<string, nat>, parent: map<string, string>, h: string): (path: seq<string>)
    requires Rooted(level, parent) && h in level
    requires forall c <- parent :: c in level && parent[c] in level && level[parent[c]] + 1 == level[c]
    ensures |path| == level[h] + 1 && path[0] == h && path[|path| - 1] == "home"
    decreases level[h]
  {
    if h == "home" then [h] else [h] + Chain(level, parent, parent[h])
  }

  ghost predicate Path(topology: Topology, path: seq<string>) {
    && path != [] && (forall i | 0 <= i < |path| :: path[i] in topology)
    && forall i | 0 <= i < |path| - 1 :: path[i + 1] in topology[path[i]]
  }

  /** A walk that has turned away from home can only come back through where it came from. */
  lemma {:induction false} AwayStaysAway(
    topology: Topology, level: map<string, nat>, parent: map<string, string>, path: seq<string>)
    requires Tree(topology, level, parent) && Rooted(level, parent) && Path(topology, path) && Distinct(path)
    requires |path| >= 2 && path[1] in parent && parent[path[1]] == path[0]
    ensures path[|path| - 1] != "home"
    decreases |path|
  {
    if |path| > 2 {
      var rest := path[1..];
      assert path[2] == rest[1] && path[2] in topology[path[1]];
      assert Joined(parent, path[1], path[2]);
      assert path[0] != path[2];
      RestIsPath(topology, path);
      AwayStaysAway(topology, level, parent, rest);
    }
  }

  lemma RestIsPath(topology: Topology, path: seq<string>)
    requires Path(topology, path) && Distinct(path) && |path| >= 2
    ensures Path(topology, path[1..]) && Distinct(path[1..])
  {
    var rest := path[1..];
    forall i | 0 <= i < |rest| - 1 ensures rest[i + 1] in topology[rest[i]] {
      assert path[i + 2] in topology[path[i + 1]];
    }
  }

  /** There is one way home: every simple path from a host on layer k to home is its chain of parents, k steps. */
  lemma {:induction false} OneWayHome(
    topology: Topology, level: map<string, nat>, parent: map<string, string>, path: seq<string>)
    requires Tree(topology, level, parent) && Rooted(level, parent) && Path(topology, path) && Distinct(path)
    requires path[0] in level && path[|path| - 1] == "home"
    ensures path == Chain(level, parent, path[0]) && |path| == level[path[0]] + 1
    decreases |path|
  {
    if |path| == 1 {
      assert path == ["home"];
    } else {
      assert path[1] in topology[path[0]];
      assert Joined(parent, path[0], path[1]);
      assert path[0] != path[|path| - 1];
      if path[1] in parent && parent[path[1]] == path[0] {
        AwayStaysAway(topology, level, parent, path);
      } else {
        RestIsPath(topology, path);
        OneWayHome(topology, level, parent, path[1..]);
        assert path == [path[0]] + path[1..];
      }
    }
  }

  /** And the chain is such a path. */
  lemma {:induction false} ChainIsPath(topology: Topology, level: map<string, nat>, parent: map<string, string>,
      h: string)
    requires Tree(topology, level, parent) && Rooted(level, parent) && h in level
    ensures Path(topology, Chain(level, parent, h)) && Distinct(Chain(level, parent, h))
    ensures forall n <- Chain(level, parent, h) :: n in level && level[n] <= level[h]
    decreases level[h]
  {
    hide Path, Distinct, Chain;
    ChainStep(level, parent, h);
    if h == "home" {
      OneHostPath(topology, h);
    } else {
      var rest := Chain(level, parent, parent[h]);
      ChainIsPath(topology, level, parent, parent[h]);
      assert Joined(parent, h, parent[h]);
      assert h !in rest;
      Prepend(topology, h, rest);
    }
  }

  lemma ChainStep(level: map<string, nat>, parent: map<string, string>, h: string)
    requires Rooted(level, parent) && h in level
    requires forall c <- parent :: c in level && parent[c] in level && level[parent[c]] + 1 == level[c]
    ensures Chain(level, parent, h) == if h == "home" then [h] else [h] + Chain(level, parent, parent[h])
  {
  }

  lemma OneHostPath(topology: Topology, h: string)
    requires h in topology
    ensures Path(topology, [h]) && Distinct([h])
  {
  }

  lemma Prepend(topology: Topology, h: string, rest: seq<string>)
    requires Path(topology, rest) && Distinct(rest) && h in topology && h !in rest && rest[0] in topology[h]
    ensures Path(topology, [h] + rest) && Distinct([h] + rest)
  {
    var path := [h] + rest;
    forall i, j | 0 <= i < j < |path| ensures path[i] != path[j] {
      if i == 0 { assert rest[j - 1] in rest; } else { assert rest[i - 1] != rest[j - 1]; }
    }
    forall i | 0 <= i < |path| - 1 ensures path[i + 1] in topology[path[i]] {
      if i > 0 { assert rest[i] in topology[rest[i - 1]]; }
    }
  }

  // ---------- growing the tree ----------

  /** Connecting a new host to a parent, both ways, keeps the tree. */
  lemma ConnectKeepsTree(
    topology: Topology, level: map<string, nat>, parent: map<string, string>, host: string, up: string)
    requires Tree(topology, level, parent)
    requires host in topology && host !in level && host !in parent && up in level && host != up
    ensures Tree(topology[host := topology[host] + [up]][up := topology[up] + [host]],
                 level[host := level[up] + 1], parent[host := up])
  {
    var later := topology[host := topology[host] + [up]][up := topology[up] + [host]];
    var further := parent[host := up];
    OffLayerIsIsolated(topology, level, parent, host);
    assert !Joined(parent, up, host);
    assert host !in topology[up];
    forall a <- later, b ensures b in later[a] <==> Joined(further, a, b) {
      assert b in topology[a] <==> Joined(parent, a, b);
    }
  }

  /** A host nobody connects stays outside the tree. */
  lemma AddIsolated(topology: Topology, level: map<string, nat>, parent: map<string, string>, host: string)
    requires Tree(topology, level, parent) && host !in topology
    ensures Tree(topology[host := []], level, parent)
  {
    forall b ensures !Joined(parent, host, b) {
    }
  }
}
