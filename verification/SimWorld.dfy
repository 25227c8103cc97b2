/** The simulated world's money and RAM (sim/world.ts). Game formulas, prices and delays are arbitrary answers. */
module SimWorld {
  import opened MoneyLedger
  import Scheduler
  import opened Wrappers

  datatype HgwKind = Hack | Grow | Weaken

  const NEW_GAME_MONEY := 1262.0
  const HOME_MAX_RAM := 1073741824.0

  function WorkerRam(kind: HgwKind): real {
    match kind case Hack => 1.7 case Grow => 1.75 case Weaken => 1.75
  }

  class Server {
    const hostname: string
    const purchased: bool
    /** RAM in use before anything of this world ran on it. */
    ghost const baseline: real
    var ramUsed: real
    var maxRam: real
    var adminRights: bool
    var cores: nat

    constructor (hostname: string, purchased: bool, ramUsed: real, maxRam: real, adminRights: bool, cores: nat)
      ensures this.hostname == hostname && this.purchased == purchased && this.baseline == this.ramUsed == ramUsed
      ensures this.maxRam == maxRam && this.adminRights == adminRights && this.cores == cores
    {
      this.hostname, this.purchased, this.baseline, this.ramUsed := hostname, purchased, ramUsed, ramUsed;
      this.maxRam, this.adminRights, this.cores := maxRam, adminRights, cores;
    }
  }

  /** An action in the air: it remembers the server object that lends its RAM, not that server's name. */
  datatype Op = Sleep | Hgw(kind: HgwKind, source: Server, ram: real, target: string)

  /** Whether the clock takes an action's landing, whatever its time is: a finite delay, not before now. */
  predicate Lands(delay: Scheduler.Deadline) {
    delay.Finite? && 0 <= delay.t
  }

  lemma LandsWhenAccepted(delay: Scheduler.Deadline, now: int, fn: int)
    ensures Lands(delay) <==> Scheduler.Accepts(now, Scheduler.Resolve(now, Scheduler.In(delay, fn)))
  {
    if delay.Finite? {
      assert Scheduler.Resolve(now, Scheduler.In(delay, fn)) == Scheduler.Finite(now + delay.t);
    }
  }

  /** How starting an action ends: refused, in the air, or with the clock's error after it was counted. */
  datatype Started = Refused | Running | Threw

  /** The RAM that unsettled actions hold on one server. */
  ghost function Held(pending: seq<Op>, server: Server): real {
    if pending == [] then 0.0
    else
      var last := pending[|pending| - 1];
      Held(pending[..|pending| - 1], server) + if last.Hgw? && last.source == server then last.ram else 0.0
  }

  ghost function Lent(op: Op, server: Server): real {
    if op.Hgw? && op.source == server then op.ram else 0.0
  }

  lemma HeldGrows(pending: seq<Op>, op: Op, server: Server)
    ensures Held(pending + [op], server) == Held(pending, server) + Lent(op, server)
  {
    assert (pending + [op])[..|pending|] == pending;
  }

  function Without(pending: seq<Op>, i: nat): seq<Op>
    requires i < |pending|
  {
    pending[..i] + pending[i + 1..]
  }

  lemma {:induction false} HeldShrinks(pending: seq<Op>, i: nat, server: Server)
    requires i < |pending|
    ensures Held(Without(pending, i), server) == Held(pending, server) - Lent(pending[i], server)
  {
    var rest, last := pending[..|pending| - 1], pending[|pending| - 1];
    if i == |pending| - 1 {
      assert Without(pending, i) == rest;
    } else {
      HeldShrinks(rest, i, server);
      assert Without(pending, i) == Without(rest, i) + [last];
      HeldGrows(Without(rest, i), last, server);
    }
  }

  lemma {:induction false} NothingLent(pending: seq<Op>, server: Server)
    requires forall op <- pending | op.Hgw? :: op.source != server
    ensures Held(pending, server) == 0.0
  {
    if pending != [] {
      NothingLent(pending[..|pending| - 1], server);
    }
  }

  lemma {:induction false} HeldIsSome(ops: seq<Op>, server: Server)
    requires forall op <- ops | op.Hgw? :: 0.0 < op.ram
    ensures 0.0 <= Held(ops, server)
  {
    if ops != [] {
      HeldIsSome(ops[..|ops| - 1], server);
    }
  }

  lemma {:induction false} LostIsHeld(ops: seq<Op>, op: Op)
    requires op in ops && op.Hgw? && forall other <- ops | other.Hgw? :: 0.0 < other.ram
    ensures 0.0 < Held(ops, op.source)
  {
    var rest, last := ops[..|ops| - 1], ops[|ops| - 1];
    assert ops == rest + [last];
    if op in rest {
      LostIsHeld(rest, op);
    } else {
      HeldIsSome(rest, op.source);
    }
  }

  class World {
    var servers: map<string, Server>
    var money: real
    var sinceInstall: Ledger
    var sinceStart: Ledger
    var pending: seq<Op>
    var inFlight: int

    /** Every server object this world has had, the balance at the last install net of its ledger, and the
        ledgers of the installs before it. */
    ghost var known: set<Server>
    /** Actions counted and lent RAM whose landing the clock then refused: they never settle. */
    ghost var lost: seq<Op>
    ghost var openingBalance: real
    ghost var earlierInstalls: real

    /** RAM is the baseline plus what unsettled and lost actions hold, on every server there ever was. */
    ghost predicate RamAccounted()
      reads `pending, `lost, `inFlight, `known, known
    {
      && (forall s <- known :: s.ramUsed == s.baseline + Held(pending, s) + Held(lost, s))
      && (forall op <- pending + lost | op.Hgw? :: op.source in known && 0.0 < op.ram)
      && inFlight == |pending| + |lost|
    }

    /** The count and the RAM are those of the actions in the air. */
    ghost predicate Exact()
      reads `pending, `inFlight, `known, known
    {
      && inFlight == |pending|
      && forall s <- known :: s.ramUsed == s.baseline + Held(pending, s)
    }

    /** They are exactly as long as the clock has refused no landing. */
    lemma ExactUntilRefused()
      requires Valid()
      ensures Exact() <==> lost == []
      ensures inFlight == |pending| <==> lost == []
      ensures forall op <- lost | op.Hgw? :: op.source.baseline + Held(pending, op.source) < op.source.ramUsed
    {
      forall op <- lost | op.Hgw? ensures op.source.baseline + Held(pending, op.source) < op.source.ramUsed {
        assert op in pending + lost;
        forall other <- lost | other.Hgw? ensures 0.0 < other.ram { assert other in pending + lost; }
        LostIsHeld(lost, op);
      }
    }

    ghost predicate RamFits()
      reads `known, known
    {
      forall s <- known :: s.ramUsed <= s.maxRam && 0.0 <= s.maxRam
    }

    ghost predicate Named()
      reads `servers, `known
    {
      && (forall name <- servers :: servers[name] in known && servers[name].hostname == name)
      && "home" in servers
    }

    /** Balance and ledgers tell the same story: since the install, and over all installs. */
    ghost predicate MoneyAccounted()
      reads `money, `sinceInstall, `sinceStart, `openingBalance, `earlierInstalls
    {
      && Adds(sinceInstall) && Adds(sinceStart)
      && money == openingBalance + sinceInstall.total
      && sinceStart.total == earlierInstalls + sinceInstall.total
    }

    ghost predicate Valid()
      reads this, known
    {
      RamAccounted() && RamFits() && Named() && MoneyAccounted()
    }

    constructor (money: real, home: Server, others: map<string, Server>)
      requires home.hostname == "home" && "home" !in others
      requires forall name <- others :: others[name].hostname == name
      requires forall s <- others.Values + {home} :: s.ramUsed == s.baseline <= s.maxRam && 0.0 <= s.maxRam
      ensures Valid() && servers == others["home" := home] && this.money == money && pending == lost == []
      ensures sinceInstall == sinceStart == Empty() && known == others.Values + {home}
    {
      this.money, this.servers, this.pending, this.inFlight := money, others["home" := home], [], 0;
      lost := [];
      sinceInstall, sinceStart := Empty(), Empty();
      known := others.Values + {home};
      openingBalance, earlierInstalls := money, 0.0;
      new;
      EmptyAdds();
      forall name <- servers ensures servers[name] in known {
        assert name == "home" || servers[name] in others.Values;
      }
    }

    // ---------- money ----------

    /** Attribute a change of the balance, in both ledgers; nothing is written for zero. */
    method RecordMoney(source: MoneySource, amount: real)
      requires Adds(sinceInstall) && Adds(sinceStart)
      modifies this`sinceInstall, this`sinceStart
      ensures Adds(sinceInstall) && Adds(sinceStart)
      ensures Moved(old(sinceInstall), sinceInstall, source, amount)
      ensures Moved(old(sinceStart), sinceStart, source, amount)
    {
      hide Adds, Moved, Credit;
      NothingMoved(sinceInstall, source);
      NothingMoved(sinceStart, source);
      if amount == 0.0 { return; }
      CreditAdds(sinceInstall, source, amount);
      CreditAdds(sinceStart, source, amount);
      sinceInstall := Credit(sinceInstall, source, amount);
      sinceStart := Credit(sinceStart, source, amount);
    }

    /** Move the balance and say why. */
    method Pay(source: MoneySource, amount: real)
      requires MoneyAccounted()
      modifies this`money, this`sinceInstall, this`sinceStart
      ensures MoneyAccounted() && money == old(money) + amount
      ensures Moved(old(sinceInstall), sinceInstall, source, amount)
      ensures Moved(old(sinceStart), sinceStart, source, amount)
    {
      hide Adds, Amount;
      money := money + amount;
      RecordMoney(source, amount);
    }

    // ---------- hack, grow, weaken ----------

    /** Start an operation. It is refused unless both servers exist, the target is rooted, there is at least one
        thread, a hack has the skill, the source has the RAM, and some strength is asked for. Otherwise it is counted
        and holds its RAM: until it settles, or, when the clock refuses the landing, for good. */
    method ExecuteHgw(kind: HgwKind, source: string, target: string, threads: int, strength: Option<real>, skill: int,
        required: int, delay: Scheduler.Deadline)
      returns (r: Started)
      requires Valid()
      modifies this`pending, this`lost, this`inFlight, known
      ensures Valid() && known == old(known)
      ensures !r.Refused? <==> (
        && source in servers && target in servers && servers[target].adminRights && 1 <= threads
        && (kind == Hack ==> required <= skill)
        && old(servers[source].ramUsed) + WorkerRam(kind) * threads as real <= servers[source].maxRam
        && (strength.Some? ==> 0.0 < strength.value))
      ensures !r.Refused? ==> (r.Running? <==> Lands(delay))
      ensures pending == old(pending)
        + if r.Running? then [Hgw(kind, servers[source], WorkerRam(kind) * threads as real, target)] else []
      ensures lost == old(lost)
        + if r.Threw? then [Hgw(kind, servers[source], WorkerRam(kind) * threads as real, target)] else []
      ensures forall s <- known ::
        s.maxRam == old(s.maxRam) && s.adminRights == old(s.adminRights) && s.cores == old(s.cores)
    {
      hide Held, MoneyAccounted;
      assert pending + [] == pending && lost + [] == lost;
      if target !in servers || source !in servers { return Refused; }
      if !servers[target].adminRights { return Refused; }
      if threads < 1 { return Refused; }
      if kind == Hack && skill < required { return Refused; }
      var ram := WorkerRam(kind) * threads as real;
      var lender := servers[source];
      if lender.maxRam < lender.ramUsed + ram { return Refused; }
      if strength.Some? && Least(strength.value, threads as real) <= 0.0 { return Refused; }
      Reserve(lender, kind, ram, target, delay);
      r := if Lands(delay) then Running else Threw;
    }

    /** Lend the RAM and count the action, then ask the clock for the landing. */
    method Reserve(lender: Server, kind: HgwKind, ram: real, target: string, delay: Scheduler.Deadline)
      requires Valid() && lender in known && 0.0 < ram && lender.ramUsed + ram <= lender.maxRam
      modifies this`pending, this`lost, this`inFlight, lender`ramUsed
      ensures Valid()
      ensures pending == old(pending) + if Lands(delay) then [Hgw(kind, lender, ram, target)] else []
      ensures lost == old(lost) + if Lands(delay) then [] else [Hgw(kind, lender, ram, target)]
    {
      hide Held, Adds;
      var op := Hgw(kind, lender, ram, target);
      forall s <- known
        ensures Held(pending + [op], s) == Held(pending, s) + Lent(op, s)
        ensures Held(lost + [op], s) == Held(lost, s) + Lent(op, s)
      {
        HeldGrows(pending, op, s);
        HeldGrows(lost, op, s);
      }
      lender.ramUsed := lender.ramUsed + ram;
      inFlight := inFlight + 1;
      if Lands(delay) { pending := pending + [op]; } else { lost := lost + [op]; }
    }

    /** An operation settles: its RAM returns to the object that lent it, and a hack's take is paid. The landing
        fails when an install has taken the target away, after the RAM is back. */
    method SettleHgw(i: nat, gained: real) returns (landed: bool)
      requires Valid() && i < |pending| && pending[i].Hgw?
      modifies this`pending, this`inFlight, this`money, this`sinceInstall, this`sinceStart, known
      ensures Valid() && known == old(known) && pending == Without(old(pending), i)
      ensures landed <==> old(pending)[i].target in servers
      ensures money == old(money) + if landed && old(pending)[i].kind == Hack then gained else 0.0
      ensures Moved(old(sinceInstall), sinceInstall, Hacking, money - old(money))
      ensures Moved(old(sinceStart), sinceStart, Hacking, money - old(money))
      ensures forall s <- known ::
        s.maxRam == old(s.maxRam) && s.adminRights == old(s.adminRights) && s.cores == old(s.cores)
      ensures forall s <- known :: s.ramUsed == old(s.ramUsed) - Lent(old(pending)[i], s)
    {
      hide Held, Adds, Without, Moved;
      NothingMoved(sinceInstall, Hacking);
      NothingMoved(sinceStart, Hacking);
      var op := pending[i];
      Release(i);
      landed := op.target in servers;
      if landed && op.kind == Hack { Pay(Hacking, gained); }
    }

    method Release(i: nat)
      requires Valid() && i < |pending| && pending[i].Hgw?
      modifies this`pending, this`inFlight, pending[i].source`ramUsed
      ensures Valid() && pending == Without(old(pending), i)
      ensures old(pending)[i].source.ramUsed == old(pending[i].source.ramUsed) - old(pending)[i].ram
    {
      hide Held, Adds;
      var op := pending[i];
      assert op in pending;
      forall s <- known ensures Held(Without(pending, i), s) == Held(pending, s) - Lent(op, s) {
        HeldShrinks(pending, i, s);
      }
      forall o <- Without(pending, i) ensures o in pending {}
      op.source.ramUsed := op.source.ramUsed - op.ram;
      inFlight := inFlight - 1;
      pending := Without(pending, i);
    }

    /** Count a sleep, then ask the clock for its end. */
    method ExecuteSleep(delay: Scheduler.Deadline) returns (r: Started)
      requires Valid()
      modifies this`pending, this`lost, this`inFlight
      ensures Valid() && r == if Lands(delay) then Running else Threw
      ensures pending == old(pending) + if r.Running? then [Sleep] else []
      ensures lost == old(lost) + if r.Threw? then [Sleep] else []
    {
      hide Held, Adds;
      forall s <- known
        ensures Held(pending + [Sleep], s) == Held(pending, s) && Held(lost + [Sleep], s) == Held(lost, s)
      {
        HeldGrows(pending, Sleep, s);
        HeldGrows(lost, Sleep, s);
      }
      inFlight := inFlight + 1;
      if Lands(delay) {
        pending := pending + [Sleep];
        r := Running;
      } else {
        lost := lost + [Sleep];
        r := Threw;
      }
    }

    method SettleSleep(i: nat)
      requires Valid() && i < |pending| && pending[i].Sleep?
      modifies this`pending, this`inFlight
      ensures Valid() && pending == Without(old(pending), i)
    {
      hide Held, Adds;
      forall s <- known ensures Held(Without(pending, i), s) == Held(pending, s) {
        HeldShrinks(pending, i, s);
      }
      forall o <- Without(pending, i) ensures o in pending {}
      inFlight := inFlight - 1;
      pending := Without(pending, i);
    }

    // ---------- servers ----------

    method Nuke(target: string, openPortsRequired: int) returns (ok: bool)
      requires Valid()
      modifies known
      ensures Valid() && known == old(known)
      ensures ok <==> target in servers && !old(servers[target].adminRights) && openPortsRequired <= 0
      ensures forall s <- known :: s.adminRights == (old(s.adminRights) || (ok && s == servers[target]))
      ensures forall s <- known :: s.ramUsed == old(s.ramUsed) && s.maxRam == old(s.maxRam) && s.cores == old(s.cores)
    {
      if target !in servers || servers[target].adminRights { return false; }
      if 0 < openPortsRequired { return false; }
      servers[target].adminRights := true;
      ok := true;
    }

    /** The cloud servers owned: bought, and neither home nor a Hacknet server. */
    ghost function Owned(): set<string>
      requires forall name <- servers :: servers[name] in known
      reads this, known
    {
      set name | name in servers && servers[name].purchased && name != "home" && !HacknetName(name)
    }

    method CountOwned() returns (owned: nat)
      requires Named()
      ensures owned == |Owned()|
    {
      var names := set name | name in servers && servers[name].purchased && name != "home" && !HacknetName(name);
      owned := |names|;
    }

    /** Buy a cloud server; no price means the price function answers infinity. */
    method BuyServer(name: string, ram: real, cost: Option<real>, limit: nat) returns (ok: bool)
      requires Valid() && (cost.Some? ==> 0.0 <= ram)
      modifies this`servers, this`known, this`money, this`sinceInstall, this`sinceStart
      ensures Valid()
      ensures ok <==> old(|Owned()|) < limit && name !in old(servers) && cost.Some? && cost.value <= old(money)
      ensures ok ==> name in servers && fresh(servers[name]) && servers == old(servers)[name := servers[name]]
      ensures ok ==> servers[name].maxRam == ram && servers[name].ramUsed == 0.0
      ensures ok ==> servers[name].purchased && servers[name].adminRights
      ensures ok ==> money == old(money) - cost.value
      ensures ok ==> Moved(old(sinceInstall), sinceInstall, Servers, -cost.value)
      ensures ok ==> Moved(old(sinceStart), sinceStart, Servers, -cost.value)
      ensures !ok ==> servers == old(servers) && money == old(money)
      ensures !ok ==> sinceInstall == old(sinceInstall) && sinceStart == old(sinceStart)
    {
      hide Held, Adds, Moved, HacknetName;
      var owned := CountOwned();
      if limit <= owned { return false; }
      if name in servers { return false; }
      if cost.None? || money < cost.value { return false; }
      Pay(Servers, -cost.value);
      var server := new Server(name, true, 0.0, ram, true, 1);
      Admit(server);
      ok := true;
    }

    /** Put a server nothing runs on into the world. */
    method Admit(server: Server)
      requires Valid() && server !in known && server.hostname !in servers
      requires server.ramUsed == server.baseline <= server.maxRam && 0.0 <= server.maxRam
      modifies this`servers, this`known
      ensures Valid() && servers == old(servers)[server.hostname := server] && known == old(known) + {server}
    {
      hide Held, Adds;
      NothingLent(pending, server);
      NothingLent(lost, server);
      servers := servers[server.hostname := server];
      known := known + {server};
    }

    /** Grow a cloud server. The price is negative unless the RAM grows. */
    method UpgradeServer(host: string, ram: real, upgradeCost: (real, real) -> real) returns (ok: bool)
      requires Valid() && forall a, b | b <= a :: upgradeCost(a, b) < 0.0
      modifies this`money, this`sinceInstall, this`sinceStart, known
      ensures Valid()
      ensures ok <==> (
        && host in servers && servers[host].purchased && !HacknetName(host)
        && 0.0 <= upgradeCost(old(servers[host].maxRam), ram) <= old(money))
      ensures ok ==> servers[host].maxRam == ram && old(servers[host].maxRam) < ram
      ensures ok ==> money == old(money) - upgradeCost(old(servers[host].maxRam), ram)
      ensures forall s <- known | !ok || s != servers[host] :: s.maxRam == old(s.maxRam)
      ensures forall s <- known ::
        s.ramUsed == old(s.ramUsed) && s.adminRights == old(s.adminRights) && s.cores == old(s.cores)
      ensures ok ==> Moved(old(sinceInstall), sinceInstall, Servers, money - old(money))
      ensures ok ==> Moved(old(sinceStart), sinceStart, Servers, money - old(money))
      ensures !ok ==> money == old(money) && sinceInstall == old(sinceInstall) && sinceStart == old(sinceStart)
    {
      hide Held, Adds, Moved, HacknetName;
      if host !in servers || !servers[host].purchased || HacknetName(servers[host].hostname) { return false; }
      var cost := upgradeCost(servers[host].maxRam, ram);
      if cost < 0.0 { return false; }
      if money < cost { return false; }
      Pay(Servers, -cost);
      servers[host].maxRam := ram;
      ok := true;
    }

    method UpgradeHomeRam(cost: real, restricted: bool) returns (ok: bool)
      requires Valid()
      modifies this`money, this`sinceInstall, this`sinceStart, known
      ensures Valid()
      ensures ok <==> (
        && old(servers["home"].maxRam) < HOME_MAX_RAM && !(restricted && 128.0 <= old(servers["home"].maxRam))
        && cost <= old(money))
      ensures ok ==> servers["home"].maxRam == 2.0 * old(servers["home"].maxRam) && money == old(money) - cost
      ensures forall s <- known | !ok || s != servers["home"] :: s.maxRam == old(s.maxRam)
      ensures forall s <- known ::
        s.ramUsed == old(s.ramUsed) && s.adminRights == old(s.adminRights) && s.cores == old(s.cores)
      ensures ok ==> Moved(old(sinceInstall), sinceInstall, Servers, -cost)
      ensures ok ==> Moved(old(sinceStart), sinceStart, Servers, -cost)
      ensures !ok ==> money == old(money) && sinceInstall == old(sinceInstall) && sinceStart == old(sinceStart)
    {
      hide Held, Adds, Moved;
      var home := servers["home"];
      if HOME_MAX_RAM <= home.maxRam || (restricted && 128.0 <= home.maxRam) { return false; }
      if money < cost { return false; }
      Pay(Servers, -cost);
      home.maxRam := home.maxRam * 2.0;
      ok := true;
    }

    method UpgradeHomeCore(cost: real, restricted: bool) returns (ok: bool)
      requires Valid()
      modifies this`money, this`sinceInstall, this`sinceStart, known
      ensures Valid()
      ensures ok <==> !restricted && old(servers["home"].cores) < 8 && cost <= old(money)
      ensures servers["home"].cores == old(servers["home"].cores) + if ok then 1 else 0
      ensures ok ==> money == old(money) - cost
      ensures forall s <- known | s != servers["home"] :: s.cores == old(s.cores)
      ensures forall s <- known ::
        s.ramUsed == old(s.ramUsed) && s.maxRam == old(s.maxRam) && s.adminRights == old(s.adminRights)
      ensures ok ==> Moved(old(sinceInstall), sinceInstall, Servers, -cost)
      ensures ok ==> Moved(old(sinceStart), sinceStart, Servers, -cost)
      ensures !ok ==> money == old(money) && sinceInstall == old(sinceInstall) && sinceStart == old(sinceStart)
    {
      hide Held, Adds, Moved;
      var home := servers["home"];
      if restricted || 8 <= home.cores { return false; }
      if money < cost { return false; }
      Pay(Servers, -cost);
      home.cores := home.cores + 1;
      ok := true;
    }

    // ---------- installs ----------

    /** The money half of an install. What the ledger then says differs from the balance by a constant of its own:
        the new-game money, unless BitNode 8 replaces the balance. */
    method ResetMoney(startingMoney: real, bitnode8: bool)
      requires MoneyAccounted()
      modifies this`money, this`sinceInstall, this`sinceStart, this`openingBalance, this`earlierInstalls
      ensures MoneyAccounted()
      ensures money == if bitnode8 then 250000000.0 else startingMoney
      ensures var extra := if NEW_GAME_MONEY < startingMoney then startingMoney - NEW_GAME_MONEY else 0.0;
        Moved(Empty(), sinceInstall, Other, extra) && Moved(old(sinceStart), sinceStart, Other, extra)
      ensures !bitnode8 && NEW_GAME_MONEY <= startingMoney ==> openingBalance == NEW_GAME_MONEY
      ensures earlierInstalls == old(sinceStart.total)
    {
      hide Adds, Amount;
      EmptyAdds();
      NothingMoved(Empty(), Other);
      NothingMoved(sinceStart, Other);
      earlierInstalls := sinceStart.total;
      sinceInstall := Empty();
      money := if bitnode8 then 250000000.0 else startingMoney;
      if NEW_GAME_MONEY < startingMoney { RecordMoney(Other, startingMoney - NEW_GAME_MONEY); }
      openingBalance := money - sinceInstall.total;
    }

    /** The server half: every server is a new object with nothing running on it, home keeping its RAM and cores;
        actions still in the air hold RAM of the objects that are gone. */
    method ResetServers(baselines: map<string, Baseline>)
      requires Valid() && "home" in baselines && forall b <- baselines.Values :: 0.0 <= b.maxRam
      modifies this`servers, this`known
      ensures Valid() && servers.Keys == baselines.Keys && old(known) <= known
      ensures forall name <- servers :: fresh(servers[name]) && servers[name].ramUsed == servers[name].baseline == 0.0
      ensures forall name <- servers | name != "home" :: Matches(servers[name], baselines[name])
      ensures servers["home"].maxRam == old(servers["home"].maxRam)
      ensures servers["home"].cores == old(servers["home"].cores)
      ensures forall s <- old(known) :: s.ramUsed == old(s.ramUsed) && s.maxRam == old(s.maxRam)
    {
      hide Held, MoneyAccounted, RamAccounted, RamFits;
      var kept := NewHome(baselines["home"]);
      servers := map["home" := kept];
      AddServers(baselines, baselines.Keys - {"home"});
    }

    ghost predicate Matches(server: Server, b: Baseline)
      reads server
    {
      server.purchased == b.purchased && server.maxRam == b.maxRam && server.adminRights == b.adminRights
        && server.cores == b.cores
    }

    /** Add a new server for each of the names left. */
    method AddServers(baselines: map<string, Baseline>, names: set<string>)
      requires Valid() && names <= baselines.Keys && names !! servers.Keys
      requires forall name <- names :: 0.0 <= baselines[name].maxRam
      modifies this`servers, this`known
      ensures Valid() && servers.Keys == old(servers.Keys) + names && old(known) <= known
      ensures forall name <- old(servers) :: servers[name] == old(servers)[name]
      ensures forall name <- names :: fresh(servers[name]) && servers[name].ramUsed == servers[name].baseline == 0.0
      ensures forall name <- names :: Matches(servers[name], baselines[name])
    {
      hide Held, MoneyAccounted, RamAccounted, RamFits;
      var left := names;
      while left != {}
        invariant Valid() && left <= names && servers.Keys == old(servers.Keys) + (names - left) && old(known) <= known
        invariant forall name <- old(servers) :: servers[name] == old(servers)[name]
        invariant forall name <- names - left ::
          fresh(servers[name]) && servers[name].ramUsed == servers[name].baseline == 0.0
        invariant forall name <- names - left :: Matches(servers[name], baselines[name])
        decreases left
      {
        var name :| name in left;
        var server := NewServer(name, baselines[name]);
        servers := servers[name := server];
        left := left - {name};
      }
    }

    method NewHome(b: Baseline) returns (server: Server)
      requires Valid()
      modifies this`known
      ensures Valid() && fresh(server) && known == old(known) + {server} && server.hostname == "home"
      ensures server.ramUsed == server.baseline == 0.0
      ensures server.maxRam == servers["home"].maxRam && server.cores == servers["home"].cores
    {
      hide Held, MoneyAccounted, RamAccounted;
      server := NewServer("home", b.(maxRam := servers["home"].maxRam, cores := servers["home"].cores));
    }

    method NewServer(name: string, b: Baseline) returns (server: Server)
      requires Valid() && 0.0 <= b.maxRam
      modifies this`known
      ensures Valid() && fresh(server) && known == old(known) + {server}
      ensures server.hostname == name && server.ramUsed == server.baseline == 0.0 && server.maxRam == b.maxRam
      ensures server.cores == b.cores && server.purchased == b.purchased && server.adminRights == b.adminRights
    {
      hide Held, MoneyAccounted;
      server := new Server(name, b.purchased, 0.0, b.maxRam, b.adminRights, b.cores);
      NothingLent(pending, server);
      NothingLent(lost, server);
      known := known + {server};
    }

    lemma NothingHeld(server: Server)
      requires RamAccounted() && server in known && server.ramUsed == server.baseline
      ensures Held(pending, server) == 0.0
    {
      forall op <- pending | op.Hgw? ensures 0.0 < op.ram { assert op in pending + lost; }
      forall op <- lost | op.Hgw? ensures 0.0 < op.ram { assert op in pending + lost; }
      HeldIsSome(pending, server);
      HeldIsSome(lost, server);
    }

    /** Install augmentations. A world restored from a save refuses, and stays as it was. */
    method PrestigeAugmentation(supported: bool, startingMoney: real, bitnode8: bool, baselines: map<string, Baseline>)
      returns (ok: bool)
      requires Valid() && "home" in baselines && forall b <- baselines.Values :: 0.0 <= b.maxRam
      modifies this
      ensures Valid() && ok == supported
      ensures pending == old(pending) && lost == old(lost) && inFlight == old(inFlight)
      ensures ok ==> money == if bitnode8 then 250000000.0 else startingMoney
      ensures ok ==>
        var extra := if NEW_GAME_MONEY < startingMoney then startingMoney - NEW_GAME_MONEY else 0.0;
        Moved(Empty(), sinceInstall, Other, extra) && Moved(old(sinceStart), sinceStart, Other, extra)
      ensures ok ==> earlierInstalls == old(sinceStart.total)
      ensures ok ==> servers.Keys == baselines.Keys && forall name <- servers :: Held(pending, servers[name]) == 0.0
      ensures ok ==> servers["home"].maxRam == old(servers["home"].maxRam)
      ensures !ok ==> servers == old(servers) && money == old(money) && sinceInstall == old(sinceInstall)
    {
      hide Held, Adds;
      if !supported { return false; }
      ResetMoney(startingMoney, bitnode8);
      ResetServers(baselines);
      forall name <- servers ensures Held(pending, servers[name]) == 0.0 {
        NothingHeld(servers[name]);
      }
      ok := true;
    }
  }

  /** Two actions the clock refuses: afterwards two are counted in flight, the hack's RAM is held, and nothing is in
      the air that could ever give it back. */
  method NothingInTheAir(home: Server) returns (w: World)
    requires home.hostname == "home" && home.adminRights && home.ramUsed == home.baseline == 0.0 && home.maxRam == 8.0
    modifies home
    ensures w.Valid() && w.pending == [] && w.inFlight == 2 && home.ramUsed == 1.7
  {
    w := new World(0.0, home, map[]);
    assert w.servers["home"] == home && w.known == {home};
    var slept := w.ExecuteSleep(Scheduler.Finite(-1));
    assert home in w.known;
    var hacked := w.ExecuteHgw(Hack, "home", "home", 1, None, 1, 1, Scheduler.NonFinite);
    OnlyLost(w.lost, home);
  }

  lemma OnlyLost(lost: seq<Op>, home: Server)
    requires |lost| == 2 && lost[0] == Sleep && lost[1] == Hgw(Hack, home, 1.7, "home")
    ensures Held(lost, home) == 1.7
  {
    assert lost == [Sleep] + [lost[1]];
    HeldGrows([Sleep], lost[1], home);
    HeldGrows([], Sleep, home);
    assert [] + [Sleep] == [Sleep];
  }

  /** What a server is reset to. */
  datatype Baseline = Baseline(purchased: bool, maxRam: real, adminRights: bool, cores: nat)

  predicate HacknetName(name: string) { "hacknet-server-" <= name }

  function Least(a: real, b: real): real { if a < b then a else b }
}
