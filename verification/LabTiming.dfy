/** How long one authentication takes the labyrinth's player, and what a failed one teaches (sim/dnet-lab.ts). */
module LabTiming {
  import opened LabArena

  /** A quotient multiplied out. */
  lemma Undone(n: real, d: real, k: real)
    requires 0.0 < d
    ensures n / d * d == n && 1.0 / d * k * d == k
  {
    var x := 1.0 / d;
    assert x * d == 1.0;
    assert x * k * d == k * (x * d);
  }

  /** A fifth more of one thread for every further one divides the delay; boots and a finished SF15 take a fifth off
      each, and a backdoor scales it. */
  lemma HasteIsExact(t: Timing)
    requires t.Trained? && 0.0 < t.threads
    ensures Haste(t) * (0.8 + 0.2 * t.threads)
      == (if t.hasBoots then 0.8 else 1.0) * (if t.sf15Level >= 3 then 0.8 else 1.0) * t.backdoorFactor
  {
    var (boots, sf15) := (if t.hasBoots then 0.8 else 1.0, if t.sf15Level > 2 then 0.8 else 1.0);
    var d := 0.8 + 0.2 * t.threads;
    assert d == 1.0 + 0.2 * (t.threads - 1.0);
    Undone(1.0, d, boots * sf15 * t.backdoorFactor);
    assert Haste(t) == 1.0 / d * (boots * sf15 * t.backdoorFactor) by {
      Reassociated(1.0 / d, boots, sf15, t.backdoorFactor);
    }
  }

  lemma Reassociated(a: real, b: real, c: real, d: real)
    ensures a * b * c * d == a * (b * c * d)
  {
  }

  /** The whole delay, multiplied out. */
  lemma DelayIsExact(stage: Stage, t: Timing, charisma: real)
    requires t.Trained? && stage.cha <= charisma && 0.0 < t.threads
    ensures AuthenticationMs(stage, t, charisma).Ok?
    ensures AuthenticationMs(stage, t, charisma).value * t.intelligenceFactor * (charisma + 150.0)
      == 850.0 * (5.0 * stage.cha + 1100.0) * Haste(t)
  {
    hide Haste;
    var (n, d) := (5.0 * stage.cha + 1100.0, charisma + 150.0);
    var q := n / d;
    Undone(n, d, 1.0);
    Undone(850.0 * q * Haste(t), t.intelligenceFactor, 1.0);
    Rearranged(q, d, n, Haste(t));
  }

  lemma Rearranged(q: real, d: real, n: real, h: real)
    requires q * d == n
    ensures 850.0 * q * h * d == 850.0 * n * h
  {
    assert 850.0 * q * h * d == 850.0 * h * (q * d);
  }

  /** `u` has every help that `t` has: as many threads, the boots and the SF15 bonus, as low a backdoor factor. */
  predicate BetterHelped(t: Timing, u: Timing)
    requires t.Trained? && u.Trained?
  {
    && t.threads <= u.threads && (t.hasBoots ==> u.hasBoots) && (t.sf15Level > 2 ==> u.sf15Level > 2)
    && 0.0 <= u.backdoorFactor <= t.backdoorFactor
  }

  /** Help never slows an authentication down. */
  lemma HelpIsFaster(t: Timing, u: Timing)
    requires t.Trained? && u.Trained? && 0.0 < t.threads && BetterHelped(t, u)
    ensures Haste(u) <= Haste(t)
  {
    var (bt, bu) := (if t.hasBoots then 0.8 else 1.0, if u.hasBoots then 0.8 else 1.0);
    var (st, su) := (if t.sf15Level > 2 then 0.8 else 1.0, if u.sf15Level > 2 then 0.8 else 1.0);
    var (x, y) := (1.0 / (1.0 + 0.2 * (t.threads - 1.0)), 1.0 / (1.0 + 0.2 * (u.threads - 1.0)));
    Quotient(1.0, 1.0 + 0.2 * (t.threads - 1.0), 1.0 + 0.2 * (u.threads - 1.0));
    ProductsOrder(y, x, bu, bt);
    ProductsOrder(y * bu, x * bt, su, st);
    ProductsOrder(y * bu * su, x * bt * st, u.backdoorFactor, t.backdoorFactor);
  }

  lemma ProductsOrder(a: real, b: real, c: real, d: real)
    requires 0.0 <= a <= b && 0.0 <= c <= d
    ensures 0.0 <= a * c <= b * d
  {
    Scaled(0.0, a, c);
    Scaled(a, b, c);
    Scaled(c, d, b);
  }

  function ToThe(x: real, n: nat): real {
    if n == 0 then 1.0 else ToThe(x, n - 1) * x
  }

  lemma TenthPower()
    ensures ToThe(1.1, 10) == 2.5937424601
  {
    assert ToThe(1.1, 4) == 1.4641;
    assert ToThe(1.1, 7) == 1.9487171;
  }

  /** A failed authentication teaches 3 + 1.1^10 a thread, times the multiplier, and half as much again in bonus
      time. */
  lemma LessonIsExact(t: Timing, failed: nat)
    requires t.Trained?
    ensures ExpAfter(t, failed + 1) - ExpAfter(t, failed)
      == (3.0 + ToThe(1.1, 10)) * t.threads * t.expMultiplier * (if t.bonusTime then 1.5 else 1.0)
  {
    TenthPower();
  }
}
