/** Pairing two arenas game by game (tools/go-promotion-statistics.ts). */
module PairedGames {
  import opened Collections
  import opened GoOpponents
  import opened Wrappers

  /** What makes two games the same game. */
  datatype GameKey = GameKey(opponent: Opponent, playtimeSeed: int, handicapSeed: int, defenseSeed: Option<int>)

  datatype Game = Game(key: GameKey, completed: bool, won: bool, power: real, turns: nat, blackScore: real,
    whiteScore: real)

  datatype Pair = Pair(candidate: Game, incumbent: Game)

  datatype PairingError =
    | DifferentCounts
    | IncumbentDuplicate
    | IncumbentIncomplete
    | CandidateDuplicate
    | CandidateIncomplete
    | NoIncumbentPair
    | UnpairedIncumbent

  datatype Result<T> = Ok(value: T) | Failed(error: PairingError)

  ghost predicate DistinctKeys(games: seq<Game>) {
    forall i, j | 0 <= i < j < |games| :: games[i].key != games[j].key
  }

  ghost function Keys(games: seq<Game>): set<GameKey> {
    set g | g in games :: g.key
  }

  ghost predicate Sound(games: seq<Game>) {
    DistinctKeys(games) && forall g <- games :: g.completed
  }

  /** Two arenas pair up: completed games of distinct identity, the same identities on both sides. */
  ghost predicate Pairable(candidate: seq<Game>, incumbent: seq<Game>) {
    && |candidate| == |incumbent| && Sound(candidate) && Sound(incumbent)
    && Keys(candidate) == Keys(incumbent)
  }

  /** Every candidate game in order, each with an incumbent game of its own identity. */
  ghost predicate PairsOf(pairs: seq<Pair>, candidate: seq<Game>, incumbent: seq<Game>) {
    && |pairs| == |candidate|
    && forall i | 0 <= i < |pairs| ::
         pairs[i].candidate == candidate[i] && pairs[i].incumbent in incumbent
         && pairs[i].incumbent.key == candidate[i].key
  }

  // ---------- counting identities ----------

  lemma {:induction false} KeyCount(games: seq<Game>)
    requires DistinctKeys(games)
    ensures |Keys(games)| == |games|
  {
    if games != [] {
      var rest := games[..|games| - 1];
      KeyCount(rest);
      assert games == rest + [games[|games| - 1]];
      assert Keys(games) == Keys(rest) + {games[|games| - 1].key};
    }
  }

  // ---------- the two passes ----------

  /** `index` maps each of the incumbent's identities to its only game. */
  ghost predicate Indexes(index: map<GameKey, Game>, games: seq<Game>) {
    && (forall g <- games :: g.key in index && index[g.key] == g)
    && (forall k <- index :: index[k] in games && index[k].key == k)
  }

  method IndexIncumbent(incumbent: seq<Game>) returns (r: Result<map<GameKey, Game>>)
    ensures r.Ok? <==> Sound(incumbent)
    ensures r.Ok? ==> Indexes(r.value, incumbent)
    ensures r.Failed? ==> r.error == IncumbentDuplicate || r.error == IncumbentIncomplete
  {
    var index: map<GameKey, Game> := map[];
    for n := 0 to |incumbent|
      invariant Sound(incumbent[..n]) && Indexes(index, incumbent[..n])
    {
      var game := incumbent[n];
      assert game in incumbent;
      if game.key in index {
        var k :| 0 <= k < n && incumbent[..n][k] == index[game.key];
        assert incumbent[k].key == incumbent[n].key;
        return Failed(IncumbentDuplicate);
      }
      if !game.completed { return Failed(IncumbentIncomplete); }
      IndexGrows(index, incumbent[..n], game);
      assert incumbent[..n + 1] == incumbent[..n] + [game];
      index := index[game.key := game];
    }
    assert incumbent[..|incumbent|] == incumbent;
    r := Ok(index);
  }

  lemma IndexGrows(index: map<GameKey, Game>, games: seq<Game>, game: Game)
    requires Sound(games) && Indexes(index, games) && game.key !in index && game.completed
    ensures Sound(games + [game]) && Indexes(index[game.key := game], games + [game])
  {
    assert forall g <- games :: g.key in index;
    assert forall k | 0 <= k < |games| :: games[k] in games;
    assert game in games + [game];
  }

  /** Pair the arenas. It succeeds exactly when their completed games match one to one, and then the
      last check of the source can no longer fail. */
  method PairGames(candidate: seq<Game>, incumbent: seq<Game>) returns (r: Result<seq<Pair>>)
    ensures r.Ok? <==> Pairable(candidate, incumbent)
    ensures r.Ok? ==> PairsOf(r.value, candidate, incumbent)
    ensures r.Failed? ==> r.error != UnpairedIncumbent
    ensures r == Failed(DifferentCounts) <==> |candidate| != |incumbent|
  {
    if |candidate| != |incumbent| { return Failed(DifferentCounts); }
    var indexed := IndexIncumbent(incumbent);
    if indexed.Failed? { return Failed(indexed.error); }
    var index := indexed.value;
    var seen: set<GameKey> := {};
    var pairs: seq<Pair> := [];
    for n := 0 to |candidate|
      invariant Paired(candidate, incumbent, index, n, seen, pairs)
    {
      var game := candidate[n];
      NextGame(candidate, incumbent, index, n, seen, pairs);
      if game.key in seen { return Failed(CandidateDuplicate); }
      if !game.completed { return Failed(CandidateIncomplete); }
      if game.key !in index { return Failed(NoIncumbentPair); }
      seen := seen + {game.key};
      pairs := pairs + [Pair(game, index[game.key])];
    }
    AllPaired(candidate, incumbent, index, seen, pairs);
    if |seen| != |index| { return Failed(UnpairedIncumbent); }
    r := Ok(pairs);
  }

  lemma IndexedKeys(index: map<GameKey, Game>, games: seq<Game>)
    requires Indexes(index, games)
    ensures index.Keys == Keys(games)
  {
  }

  /** What the second pass knows after `n` candidate games. */
  ghost predicate Paired(
    candidate: seq<Game>, incumbent: seq<Game>, index: map<GameKey, Game>, n: nat, seen: set<GameKey>, pairs: seq<Pair>)
  {
    && n <= |candidate| && Indexes(index, incumbent)
    && seen == Keys(candidate[..n]) && Sound(candidate[..n]) && seen <= index.Keys
    && PairsOf(pairs, candidate[..n], incumbent)
  }

  /** Each refusal of the next game is a real obstacle; otherwise the pass goes on. */
  lemma NextGame(
    candidate: seq<Game>, incumbent: seq<Game>, index: map<GameKey, Game>, n: nat, seen: set<GameKey>, pairs: seq<Pair>)
    requires n < |candidate| && Paired(candidate, incumbent, index, n, seen, pairs)
    ensures var game := candidate[n];
      if game.key in seen || !game.completed || game.key !in index then !Pairable(candidate, incumbent)
      else Paired(candidate, incumbent, index, n + 1, seen + {game.key}, pairs + [Pair(game, index[game.key])])
  {
    var game := candidate[n];
    var before := candidate[..n];
    assert game in candidate && candidate[..n + 1] == before + [game];
    if game.key in seen {
      var k := KeyedGame(before, game.key);
      assert candidate[k].key == candidate[n].key;
    } else if game.key !in index {
      assert game.key in Keys(candidate);
      IndexedKeys(index, incumbent);
    } else if game.completed {
      assert forall k | 0 <= k < n :: before[k] in before && before[k].key in seen;
    }
  }

  lemma AllPaired(
    candidate: seq<Game>, incumbent: seq<Game>, index: map<GameKey, Game>, seen: set<GameKey>, pairs: seq<Pair>)
    requires |candidate| == |incumbent| && Sound(incumbent)
    requires Paired(candidate, incumbent, index, |candidate|, seen, pairs)
    ensures Pairable(candidate, incumbent) && PairsOf(pairs, candidate, incumbent) && |seen| == |index|
  {
    assert candidate[..|candidate|] == candidate;
    IndexedKeys(index, incumbent);
    KeyCount(candidate);
    KeyCount(incumbent);
    SubsetOfEqualSize(seen, index.Keys);
  }

  // ---------- pairing is a bijection ----------

  ghost function Incumbents(pairs: seq<Pair>): seq<Game> {
    seq(|pairs|, i requires 0 <= i < |pairs| => pairs[i].incumbent)
  }

  /** Taking one element out of a duplicate-free list leaves the others, each still once. */
  lemma TakeOut<T>(b: seq<T>, k: nat) returns (others: seq<T>)
    requires k < |b| && Distinct(b)
    ensures Distinct(others) && |others| == |b| - 1
    ensures multiset(b) == multiset(others) + multiset{b[k]}
    ensures forall x <- b | x != b[k] :: x in others
  {
    others := b[..k] + b[k + 1..];
    assert b == b[..k] + [b[k]] + b[k + 1..];
    forall x <- b | x != b[k] ensures x in others {
      var i :| 0 <= i < |b| && b[i] == x;
      assert x == if i < k then others[i] else others[i - 1];
    }
  }

  /** Two duplicate-free lists of one length, one inside the other, are permutations. */
  lemma {:induction false} Permutation<T>(a: seq<T>, b: seq<T>)
    requires |a| == |b| && Distinct(a) && Distinct(b)
    requires forall x <- a :: x in b
    ensures multiset(a) == multiset(b)
    decreases |a|
  {
    if a != [] {
      var last := a[|a| - 1];
      var rest := a[..|a| - 1];
      assert a == rest + [last];
      assert last in a;
      var k :| 0 <= k < |b| && b[k] == last;
      var others := TakeOut(b, k);
      forall x <- rest ensures x in others {
        InRest(a, x);
      }
      Permutation(rest, others);
    }
  }

  lemma InRest<T>(a: seq<T>, x: T)
    requires a != [] && Distinct(a) && x in a[..|a| - 1]
    ensures x in a && x != a[|a| - 1]
  {
    var i :| 0 <= i < |a| - 1 && a[..|a| - 1][i] == x;
    assert a[i] == x;
  }

  /** An identity belongs to one game of an arena. */
  lemma SameKeySameGame(games: seq<Game>, g: Game, h: Game)
    requires DistinctKeys(games) && g in games && h in games && g.key == h.key
    ensures g == h
  {
    var i :| 0 <= i < |games| && games[i] == g;
    var j :| 0 <= j < |games| && games[j] == h;
  }

  /** Every incumbent game is used by exactly one pair. */
  lemma PairingIsABijection(pairs: seq<Pair>, candidate: seq<Game>, incumbent: seq<Game>)
    requires Pairable(candidate, incumbent) && PairsOf(pairs, candidate, incumbent)
    ensures multiset(Incumbents(pairs)) == multiset(incumbent)
  {
    var used := Incumbents(pairs);
    forall i, j | 0 <= i < j < |used| ensures used[i].key != used[j].key {
      assert candidate[i].key != candidate[j].key;
    }
    forall g <- used ensures g in incumbent {
      var i :| 0 <= i < |used| && used[i] == g;
    }
    Permutation(used, incumbent);
  }

  /** The pairing is determined by the candidate's order and the incumbent's games alone. */
  lemma PairingIsUnique(pairs: seq<Pair>, others: seq<Pair>, candidate: seq<Game>, incumbent: seq<Game>)
    requires DistinctKeys(incumbent)
    requires PairsOf(pairs, candidate, incumbent) && PairsOf(others, candidate, incumbent)
    ensures pairs == others
  {
    forall i | 0 <= i < |pairs| ensures pairs[i] == others[i] {
      SameKeySameGame(incumbent, pairs[i].incumbent, others[i].incumbent);
    }
  }

  /** The incumbent game of a candidate game's identity. */
  ghost function ReferenceOf(candidate: seq<Game>, incumbent: seq<Game>, i: nat): (reference: Game)
    requires Pairable(candidate, incumbent) && i < |candidate|
    ensures reference in incumbent && reference.key == candidate[i].key
  {
    ReferenceExists(candidate, incumbent, i);
    var reference :| reference in incumbent && reference.key == candidate[i].key;
    reference
  }

  lemma ReferenceExists(candidate: seq<Game>, incumbent: seq<Game>, i: nat)
    requires Pairable(candidate, incumbent) && i < |candidate|
    ensures exists reference :: reference in incumbent && reference.key == candidate[i].key
  {
    assert candidate[i] in candidate;
    assert candidate[i].key in Keys(incumbent);
    var k := KeyedGame(incumbent, candidate[i].key);
    assert incumbent[k] in incumbent;
  }

  /** The pairing that two pairable arenas have. */
  ghost function PairingOf(candidate: seq<Game>, incumbent: seq<Game>): (pairs: seq<Pair>)
    requires Pairable(candidate, incumbent)
    ensures PairsOf(pairs, candidate, incumbent)
  {
    seq(|candidate|, i requires 0 <= i < |candidate| => Pair(candidate[i], ReferenceOf(candidate, incumbent, i)))
  }

  function Swap(p: Pair): Pair {
    Pair(p.incumbent, p.candidate)
  }

  function Swapped(pairs: seq<Pair>): seq<Pair> {
    seq(|pairs|, i requires 0 <= i < |pairs| => Swap(pairs[i]))
  }

  lemma PairsAreDistinct(pairs: seq<Pair>, candidate: seq<Game>, incumbent: seq<Game>)
    requires DistinctKeys(candidate) && PairsOf(pairs, candidate, incumbent)
    ensures Distinct(pairs) && Distinct(Swapped(pairs))
  {
    forall i, j | 0 <= i < j < |pairs| ensures pairs[i] != pairs[j] && Swap(pairs[i]) != Swap(pairs[j]) {
      assert candidate[i].key != candidate[j].key;
    }
  }

  lemma KeyedGame(games: seq<Game>, key: GameKey) returns (k: nat)
    requires key in Keys(games)
    ensures k < |games| && games[k].key == key
  {
    var g :| g in games && g.key == key;
    k :| 0 <= k < |games| && games[k] == g;
  }

  /** Each pair of one pairing occurs, exchanged, in the other. */
  lemma SwappedPairOccurs(pairs: seq<Pair>, others: seq<Pair>, a: seq<Game>, b: seq<Game>, i: nat)
    requires Pairable(a, b) && PairsOf(pairs, a, b) && PairsOf(others, b, a) && i < |others|
    ensures others[i] in Swapped(pairs)
  {
    assert b[i] in b && b[i].key in Keys(b);
    var k := KeyedGame(a, b[i].key);
    assert a[k] in a;
    SameKeySameGame(a, a[k], others[i].incumbent);
    SameKeySameGame(b, b[i], pairs[k].incumbent);
    assert Swapped(pairs)[k] == others[i];
  }

  /** Exchanging the arenas exchanges the games of every pair and nothing else. */
  lemma PairingIsSymmetric(pairs: seq<Pair>, others: seq<Pair>, a: seq<Game>, b: seq<Game>)
    requires Pairable(a, b) && PairsOf(pairs, a, b) && PairsOf(others, b, a)
    ensures Pairable(b, a) && multiset(others) == multiset(Swapped(pairs))
  {
    PairsAreDistinct(pairs, a, b);
    PairsAreDistinct(others, b, a);
    forall p <- others ensures p in Swapped(pairs) {
      var i :| 0 <= i < |others| && others[i] == p;
      SwappedPairOccurs(pairs, others, a, b, i);
    }
    Permutation(others, Swapped(pairs));
  }

  lemma ReorderedPairOccurs(
    pairs: seq<Pair>, others: seq<Pair>, a: seq<Game>, b: seq<Game>, a': seq<Game>, b': seq<Game>, i: nat)
    requires PairsOf(pairs, a, b) && PairsOf(others, a', b') && DistinctKeys(b') && i < |pairs|
    requires a[i] in a' && pairs[i].incumbent in b'
    ensures pairs[i] in others
  {
    var k :| 0 <= k < |a'| && a'[k] == a[i];
    SameKeySameGame(b', pairs[i].incumbent, others[k].incumbent);
    assert others[k] == pairs[i];
  }

  /** Reordering the candidate arena reorders the pairs; reordering the incumbent changes nothing. */
  lemma PairingIgnoresOrder(
    pairs: seq<Pair>, others: seq<Pair>, a: seq<Game>, b: seq<Game>, a': seq<Game>, b': seq<Game>)
    requires Pairable(a, b) && PairsOf(pairs, a, b) && Pairable(a', b') && PairsOf(others, a', b')
    requires multiset(a) == multiset(a') && multiset(b) == multiset(b')
    ensures multiset(pairs) == multiset(others)
  {
    SameMembers(a, a');
    SameMembers(b, b');
    PairsAreDistinct(pairs, a, b);
    PairsAreDistinct(others, a', b');
    forall p <- pairs ensures p in others {
      var i :| 0 <= i < |pairs| && pairs[i] == p;
      assert a[i] in a;
      ReorderedPairOccurs(pairs, others, a, b, a', b', i);
    }
    Permutation(pairs, others);
  }

  lemma SameMembers<T>(a: seq<T>, b: seq<T>)
    requires multiset(a) == multiset(b)
    ensures |a| == |b| && forall x <- a :: x in b
  {
    assert |multiset(a)| == |a| && |multiset(b)| == |b|;
    forall x <- a ensures x in b {
      assert x in multiset(b);
    }
  }

  /** Whether identities are distinct does not depend on the order of the games. */
  lemma {:induction false} KeysBound(games: seq<Game>)
    ensures |Keys(games)| <= |games|
  {
    if games != [] {
      var rest := games[..|games| - 1];
      KeysBound(rest);
      assert games == rest + [games[|games| - 1]];
      assert Keys(games) == Keys(rest) + {games[|games| - 1].key};
    }
  }

  lemma DistinctByCount(games: seq<Game>)
    requires |Keys(games)| == |games|
    ensures DistinctKeys(games)
  {
    forall i, j | 0 <= i < j < |games| ensures games[i].key != games[j].key {
      if games[i].key == games[j].key {
        var others := games[..j] + games[j + 1..];
        assert others[i] == games[i];
        forall g <- games ensures g.key in Keys(others) {
          var k :| 0 <= k < |games| && games[k] == g;
          assert g.key == if k < j then others[k].key else if k == j then others[i].key else others[k - 1].key;
        }
        KeysBound(others);
        SmallerSubset(Keys(games), Keys(others));
      }
    }
  }

  lemma PairableIgnoresOrder(a: seq<Game>, b: seq<Game>, a': seq<Game>, b': seq<Game>)
    requires Pairable(a, b) && multiset(a) == multiset(a') && multiset(b) == multiset(b')
    ensures Pairable(a', b')
  {
    SoundIgnoresOrder(a, a');
    SoundIgnoresOrder(b, b');
  }

  lemma SoundIgnoresOrder(a: seq<Game>, a': seq<Game>)
    requires Sound(a) && multiset(a) == multiset(a')
    ensures Sound(a') && |a| == |a'| && Keys(a) == Keys(a')
  {
    SameMembers(a, a');
    SameMembers(a', a);
    assert Keys(a) == Keys(a');
    KeyCount(a);
    DistinctByCount(a');
  }
}
