/** How many calls the rate limiter lets through, and exactly when its cleaner can be noticed. */
module RateBounds {
  import opened Options
  import opened RateLimiter

  /** The calls that one window allows: the first call is allowed whatever the configuration says. */
  function Burst(cfg: Config): int {
    if cfg.maxRetries < 1 then 1 else cfg.maxRetries
  }

  /** How many calls for `key` between `lo` and `hi` were allowed. */
  function AllowedIn(log: seq<Call>, key: string, lo: int, hi: int): nat {
    if log == [] then 0
    else
      var c := log[|log| - 1];
      AllowedIn(log[..|log| - 1], key, lo, hi) + if c.key == key && c.allowed && lo <= c.now <= hi then 1 else 0
  }

  ghost predicate NoResetOf(ops: seq<Op>, key: string) {
    forall i :: 0 <= i < |ops| ==> !(ops[i].ResetCall? && ops[i].key == key)
  }

  ghost predicate NoSweeps(ops: seq<Op>) {
    forall i :: 0 <= i < |ops| ==> !ops[i].SweepTick?
  }

  /** The shortest time from a call that blocks a key to one that unblocks it. */
  const PAUSE: int := BLOCK + 1

  /** The most calls that can be allowed in the `x` nanoseconds before a window opens: a burst for every pause, and all
      but the first call of an earlier window, unless the pauses fill the time exactly and the earlier window cannot
      have been swept while it was open. */
  function Before(cfg: Config, x: int): int {
    Burst(cfg) * (x / PAUSE) + if x % PAUSE == 0 && cfg.window <= RETENTION then 0 else Burst(cfg) - 1
  }

  /** The most calls that an interval as long as the window lets through. */
  function Most(cfg: Config): int {
    if cfg.window < 0 then 0 else Before(cfg, cfg.window) + Burst(cfg)
  }

  lemma BeforeRises(cfg: Config, x: int, y: int)
    requires 0 <= x <= y
    ensures 0 <= Before(cfg, x) <= Before(cfg, y)
  {
    var b, m, n := Burst(cfg), x / PAUSE, y / PAUSE;
    Multiply(b, 0, m);
    if m < n {
      Multiply(b, m + 1, n);
      assert b * (m + 1) == b * m + b;
    }
  }

  lemma Multiply(b: int, m: int, n: int)
    requires b >= 1 && m <= n
    ensures b * m <= b * n
  {
  }

  lemma BeforePause(cfg: Config, x: int)
    requires x >= 0
    ensures Before(cfg, x + PAUSE) == Before(cfg, x) + Burst(cfg)
  {
    assert (x + PAUSE) / PAUSE == x / PAUSE + 1;
    assert Burst(cfg) * (x / PAUSE + 1) == Burst(cfg) * (x / PAUSE) + Burst(cfg);
  }

  // The upper bound, by what the entry says about the calls counted so far.

  ghost predicate Within(cfg: Config, entry: Option<Attempt>, now: int) {
    entry.Some? ==>
      && 1 <= entry.value.count
      && (!entry.value.blocked ==> entry.value.count <= Burst(cfg))
      && Plausible(cfg, entry, now)
  }

  /** `n` calls of the interval starting at `lo` have been allowed so far: those of the current window, without its first
      if it opened before `lo`, and those before it. Without an entry they fit into the time since `lo`. */
  ghost predicate Tally(cfg: Config, entry: Option<Attempt>, lo: int, now: int, n: int) {
    (n > 0 ==> lo <= now) &&
    match entry
    case None => n <= Most(cfg) && (lo <= now <= lo + cfg.window ==> n <= Before(cfg, now - lo))
    case Some(e) =>
      var current := if e.count < Burst(cfg) then e.count else Burst(cfg);
      && (n > 0 ==> if e.blocked then e.blockTime >= lo else e.firstTime + cfg.window >= lo)
      && (e.firstTime < lo ==> n < current)
      && (lo <= e.firstTime <= lo + cfg.window ==> n <= current + Before(cfg, e.firstTime - lo))
      && n <= Most(cfg)
  }

  lemma TallyNext(cfg: Config, entry: Option<Attempt>, lo: int, n: int, now: int)
    requires cfg.window >= 0 && Within(cfg, entry, now) && Tally(cfg, entry, lo, now, n)
    ensures var d := Decide(cfg, entry, now);
            && Within(cfg, Some(d.entry), now)
            && Tally(cfg, Some(d.entry), lo, now, n + if d.allowed && lo <= now <= lo + cfg.window then 1 else 0)
  {
    if entry.Some? && !Expired(cfg, entry.value, now) {
      TallyKept(cfg, entry.value, lo, n, now);
    } else {
      TallyRenewed(cfg, entry, lo, n, now);
    }
  }

  /** In an open window, calls count up to the burst, and in a blocked one nothing changes. */
  lemma TallyKept(cfg: Config, e: Attempt, lo: int, n: int, now: int)
    requires cfg.window >= 0 && Within(cfg, Some(e), now) && Tally(cfg, Some(e), lo, now, n) && !Expired(cfg, e, now)
    ensures var d := Decide(cfg, Some(e), now);
            && Within(cfg, Some(d.entry), now)
            && Tally(cfg, Some(d.entry), lo, now, n + if d.allowed && lo <= now <= lo + cfg.window then 1 else 0)
  {
    if e.firstTime < lo {
      BeforeRises(cfg, 0, cfg.window);
    } else if e.firstTime <= lo + cfg.window {
      BeforeRises(cfg, e.firstTime - lo, cfg.window);
    }
  }

  lemma TallyRenewed(cfg: Config, entry: Option<Attempt>, lo: int, n: int, now: int)
    requires cfg.window >= 0 && Within(cfg, entry, now) && Tally(cfg, entry, lo, now, n)
    requires entry.Some? ==> Expired(cfg, entry.value, now)
    ensures var d := Decide(cfg, entry, now);
            && Within(cfg, Some(d.entry), now)
            && Tally(cfg, Some(d.entry), lo, now, n + if d.allowed && lo <= now <= lo + cfg.window then 1 else 0)
  {
    if lo <= now <= lo + cfg.window {
      BeforeRises(cfg, now - lo, cfg.window);
      if entry.Some? && n > 0 {
        BeforeRenewal(cfg, entry.value, lo, n, now);
      }
    }
  }

  /** Sweeping the entry, which is old, keeps the count: the next window opens a pause later. */
  lemma TallySwept(cfg: Config, e: Attempt, lo: int, n: int, now: int)
    requires cfg.window >= 0 && Within(cfg, Some(e), now) && Tally(cfg, Some(e), lo, now, n) && now - e.firstTime > RETENTION
    ensures Tally(cfg, None, lo, now, n)
  {
    if lo <= now <= lo + cfg.window {
      BeforeRises(cfg, 0, now - lo);
      if e.firstTime < lo {
        if lo < now {
          BeforeRises(cfg, 1, now - lo);
        }
      } else {
        BeforePause(cfg, e.firstTime - lo);
        BeforeRises(cfg, e.firstTime - lo + PAUSE, now - lo);
      }
    }
  }

  /** When a new window opens inside the interval, what came before it fits into the time since `lo`. */
  lemma BeforeRenewal(cfg: Config, e: Attempt, lo: int, n: int, now: int)
    requires cfg.window >= 0 && Within(cfg, Some(e), now) && Tally(cfg, Some(e), lo, now, n) && n > 0
    requires lo <= now <= lo + cfg.window && Expired(cfg, e, now)
    ensures n <= Before(cfg, now - lo)
  {
    if e.firstTime < lo {
      BeforeRises(cfg, 1, now - lo);
    } else if e.blocked {
      BeforePause(cfg, e.firstTime - lo);
      BeforeRises(cfg, e.firstTime - lo + PAUSE, now - lo);
    }
  }

  lemma {:induction false} RunTallies(cfg: Config, ops: seq<Op>, key: string, lo: int, now: int)
    requires cfg.window >= 0
    requires Ordered(ops) && UpTo(ops, now) && NoResetOf(ops, key)
    ensures Within(cfg, Lookup(Run(cfg, ops), key), now)
    ensures Tally(cfg, Lookup(Run(cfg, ops), key), lo, now, AllowedIn(Log(cfg, ops), key, lo, lo + cfg.window))
  {
    if ops == [] {
      NothingYet(cfg, lo, now);
    } else {
      var n := |ops| - 1;
      var before, op := ops[..n], ops[n];
      OrderedPrefix(ops);
      RunTallies(cfg, before, key, lo, op.now);
      assert !(op.ResetCall? && op.key == key);
      assert ops == before + [op];
      TallyStep(cfg, before, op, key, lo);
      TallyLater(cfg, Lookup(Run(cfg, ops), key), lo, AllowedIn(Log(cfg, ops), key, lo, lo + cfg.window), op.now, now);
    }
  }

  lemma NothingYet(cfg: Config, lo: int, now: int)
    requires cfg.window >= 0
    ensures Tally(cfg, None, lo, now, 0)
  {
    BeforeRises(cfg, 0, cfg.window);
    if lo <= now {
      BeforeRises(cfg, 0, now - lo);
    }
  }

  lemma TallyStep(cfg: Config, ops: seq<Op>, op: Op, key: string, lo: int)
    requires cfg.window >= 0 && !(op.ResetCall? && op.key == key)
    requires Within(cfg, Lookup(Run(cfg, ops), key), op.now)
    requires Tally(cfg, Lookup(Run(cfg, ops), key), lo, op.now, AllowedIn(Log(cfg, ops), key, lo, lo + cfg.window))
    ensures Within(cfg, Lookup(Run(cfg, ops + [op]), key), op.now)
    ensures Tally(cfg, Lookup(Run(cfg, ops + [op]), key), lo, op.now,
                  AllowedIn(Log(cfg, ops + [op]), key, lo, lo + cfg.window))
  {
    RunNext(cfg, ops, op);
    var log := Log(cfg, ops);
    if op.AllowCall? {
      assert Log(cfg, ops + [op])[..|log|] == log;
    } else {
      assert Log(cfg, ops + [op]) == log;
    }
    if op.AllowCall? && op.key == key {
      TallyNext(cfg, Lookup(Run(cfg, ops), key), lo, AllowedIn(log, key, lo, lo + cfg.window), op.now);
    } else if op.SweepTick? && key in Run(cfg, ops) && op.now - Run(cfg, ops)[key].firstTime > RETENTION {
      TallySwept(cfg, Run(cfg, ops)[key], lo, AllowedIn(log, key, lo, lo + cfg.window), op.now);
    } else {
      assert Lookup(Run(cfg, ops + [op]), key) == Lookup(Run(cfg, ops), key);
      assert AllowedIn(Log(cfg, ops + [op]), key, lo, lo + cfg.window) == AllowedIn(log, key, lo, lo + cfg.window);
    }
  }

  lemma TallyLater(cfg: Config, entry: Option<Attempt>, lo: int, n: int, now: int, later: int)
    requires cfg.window >= 0 && n >= 0 && Within(cfg, entry, now) && Tally(cfg, entry, lo, now, n) && now <= later
    ensures Within(cfg, entry, later) && Tally(cfg, entry, lo, later, n)
  {
    if lo <= now {
      BeforeRises(cfg, now - lo, later - lo);
    } else if lo <= later {
      BeforeRises(cfg, 0, later - lo);
    }
  }

  lemma {:induction false} NothingIn(log: seq<Call>, key: string, lo: int, hi: int)
    requires hi < lo
    ensures AllowedIn(log, key, lo, hi) == 0
  {
    if log == [] {
    } else {
      NothingIn(log[..|log| - 1], key, lo, hi);
    }
  }

  lemma AtMostMost(cfg: Config, ops: seq<Op>, key: string, lo: int)
    requires Ordered(ops) && NoResetOf(ops, key)
    ensures AllowedIn(Log(cfg, ops), key, lo, lo + cfg.window) <= Most(cfg)
  {
    if cfg.window < 0 {
      NothingIn(Log(cfg, ops), key, lo, lo + cfg.window);
    } else {
      RunTallies(cfg, ops, key, lo, if ops == [] then lo else ops[|ops| - 1].now);
    }
  }

  // Runs that show the conditions to be exact.

  lemma RunNext(cfg: Config, ops: seq<Op>, op: Op)
    ensures Run(cfg, ops + [op]) == Step(cfg, Run(cfg, ops), op)
    ensures Log(cfg, ops + [op]) == Log(cfg, ops) +
            if op.AllowCall? then [Call(op.key, op.now, Decide(cfg, Lookup(Run(cfg, ops), op.key), op.now).allowed)] else []
  {
    assert (ops + [op])[..|ops|] == ops;
  }

  /** A run that calls only for `key`, with the entry it ends in and the calls that it allowed. */
  ghost predicate Reaches(cfg: Config, key: string, lo: int, hi: int, ops: seq<Op>, now: int, e: Attempt, n: int) {
    && Ordered(ops) && UpTo(ops, now) && NoResetOf(ops, key)
    && Lookup(Run(cfg, ops), key) == Some(e)
    && AllowedIn(Log(cfg, ops), key, lo, hi) == n
  }

  lemma OneMore(cfg: Config, key: string, lo: int, hi: int, ops: seq<Op>, now: int, e: Attempt, n: int, t: int)
    requires Reaches(cfg, key, lo, hi, ops, now, e, n) && now <= t
    ensures var d := Decide(cfg, Some(e), t);
            Reaches(cfg, key, lo, hi, ops + [AllowCall(key, t)], t, d.entry, n + if d.allowed && lo <= t <= hi then 1 else 0)
  {
    RunNext(cfg, ops, AllowCall(key, t));
    CountNext(Log(cfg, ops), Call(key, t, Decide(cfg, Some(e), t).allowed), key, lo, hi);
    OrderedNext(ops, now, AllowCall(key, t));
  }

  lemma CountNext(log: seq<Call>, c: Call, key: string, lo: int, hi: int)
    ensures AllowedIn(log + [c], key, lo, hi) ==
            AllowedIn(log, key, lo, hi) + if c.key == key && c.allowed && lo <= c.now <= hi then 1 else 0
  {
    assert (log + [c])[..|log|] == log;
  }

  lemma OrderedNext(ops: seq<Op>, now: int, op: Op)
    requires Ordered(ops) && UpTo(ops, now) && now <= op.now
    ensures Ordered(ops + [op]) && UpTo(ops + [op], op.now)
  {
  }

  /** Calls at one moment of an open window, until the attempts are used up. */
  lemma {:induction false} FillUp(cfg: Config, key: string, lo: int, hi: int, ops: seq<Op>, now: int, e: Attempt, n: int, t: int, k: nat)
    returns (more: seq<Op>)
    requires Reaches(cfg, key, lo, hi, ops, now, e, n) && now <= t
    requires !e.blocked && t - e.firstTime <= cfg.window && 1 <= e.count && e.count + k <= Burst(cfg)
    ensures NoSweeps(ops) ==> NoSweeps(more)
    ensures Reaches(cfg, key, lo, hi, more, t, e.(count := e.count + k), n + if lo <= t <= hi then k else 0)
    decreases k
  {
    if k == 0 {
      more := ops;
    } else {
      FillOne(cfg, key, lo, hi, ops, now, e, n, t);
      more := FillUp(cfg, key, lo, hi, ops + [AllowCall(key, t)], t, e.(count := e.count + 1), n + if lo <= t <= hi then 1 else 0, t, k - 1);
    }
  }

  lemma FillOne(cfg: Config, key: string, lo: int, hi: int, ops: seq<Op>, now: int, e: Attempt, n: int, t: int)
    requires Reaches(cfg, key, lo, hi, ops, now, e, n) && now <= t
    requires !e.blocked && t - e.firstTime <= cfg.window && 1 <= e.count < Burst(cfg)
    ensures Reaches(cfg, key, lo, hi, ops + [AllowCall(key, t)], t, e.(count := e.count + 1), n + if lo <= t <= hi then 1 else 0)
    ensures NoSweeps(ops) ==> NoSweeps(ops + [AllowCall(key, t)])
  {
    OneMore(cfg, key, lo, hi, ops, now, e, n, t);
  }

  lemma FirstCall(cfg: Config, key: string, lo: int, hi: int, t: int)
    ensures Reaches(cfg, key, lo, hi, [AllowCall(key, t)], t, Attempt(1, t, false, ZERO), if lo <= t <= hi then 1 else 0)
  {
    RunNext(cfg, [], AllowCall(key, t));
    assert [] + [AllowCall(key, t)] == [AllowCall(key, t)];
    assert Log(cfg, [AllowCall(key, t)]) == [Call(key, t, true)];
    assert [Call(key, t, true)][..0] == [];
  }

  /** The rest of a burst, and the call that blocks the key, after a window has opened at `t`. */
  lemma FinishBurst(cfg: Config, key: string, lo: int, hi: int, ops: seq<Op>, renewed: Attempt, n: int, t: int)
    returns (more: seq<Op>)
    requires cfg.window >= 0 && lo <= t <= hi && renewed.count == 1 && renewed.firstTime == t && !renewed.blocked
    requires Reaches(cfg, key, lo, hi, ops, t, renewed, n + 1)
    ensures Reaches(cfg, key, lo, hi, more, t, Attempt(Burst(cfg) + 1, t, true, t), n + Burst(cfg))
  {
    var most := FillUp(cfg, key, lo, hi, ops, t, renewed, n + 1, t, Burst(cfg) - 1);
    OneMore(cfg, key, lo, hi, most, t, renewed.(count := Burst(cfg)), n + Burst(cfg), t);
    more := most + [AllowCall(key, t)];
  }

  /** A whole burst and the call that blocks the key, from an entry that has expired. */
  lemma BurstAndBlock(cfg: Config, key: string, lo: int, hi: int, ops: seq<Op>, now: int, e: Attempt, n: int, t: int)
    returns (more: seq<Op>)
    requires cfg.window >= 0 && lo <= t <= hi && now <= t
    requires Reaches(cfg, key, lo, hi, ops, now, e, n) && Expired(cfg, e, t)
    ensures Reaches(cfg, key, lo, hi, more, t, Attempt(Burst(cfg) + 1, t, true, t), n + Burst(cfg))
  {
    OneMore(cfg, key, lo, hi, ops, now, e, n, t);
    more := FinishBurst(cfg, key, lo, hi, ops + [AllowCall(key, t)], Attempt(1, t, false, e.blockTime), n, t);
  }

  /** The same after the entry has been swept, be it expired or not. */
  lemma SweepAndBurst(cfg: Config, key: string, lo: int, hi: int, ops: seq<Op>, now: int, e: Attempt, n: int, t: int)
    returns (more: seq<Op>)
    requires cfg.window >= 0 && lo <= t <= hi && now <= t
    requires Reaches(cfg, key, lo, hi, ops, now, e, n) && t - e.firstTime > RETENTION
    ensures Reaches(cfg, key, lo, hi, more, t, Attempt(Burst(cfg) + 1, t, true, t), n + Burst(cfg))
  {
    var swept := ops + [SweepTick(t)];
    RunNext(cfg, ops, SweepTick(t));
    RunNext(cfg, swept, AllowCall(key, t));
    var log := Log(cfg, swept + [AllowCall(key, t)]);
    assert log[..|log| - 1] == Log(cfg, ops);
    more := FinishBurst(cfg, key, lo, hi, swept + [AllowCall(key, t)], Attempt(1, t, false, ZERO), n, t);
  }

  /** Bursts that follow one another as closely as the blocks between them allow. */
  lemma {:induction false} ManyBursts(cfg: Config, key: string, lo: int, hi: int, ops: seq<Op>, now: int, e: Attempt, n: int, t: int, k: nat)
    returns (more: seq<Op>, last: int)
    requires cfg.window >= 0 && lo <= t && t + k * PAUSE <= hi && now <= t
    requires Reaches(cfg, key, lo, hi, ops, now, e, n) && Expired(cfg, e, t)
    ensures Reaches(cfg, key, lo, hi, more, last, Attempt(Burst(cfg) + 1, last, true, last), n + Burst(cfg) * (k + 1))
    decreases k
  {
    last := t;
    more := BurstAndBlock(cfg, key, lo, hi, ops, now, e, n, t);
    if k == 0 {
    } else {
      assert n + Burst(cfg) + Burst(cfg) * k == n + Burst(cfg) * (k + 1);
      more, last := ManyBursts(cfg, key, lo, hi, more, t, Attempt(Burst(cfg) + 1, t, true, t), n + Burst(cfg), t + PAUSE, k - 1);
    }
  }

  ghost predicate AllowsIn(cfg: Config, key: string, ops: seq<Op>, lo: int, n: int) {
    Ordered(ops) && NoResetOf(ops, key) && AllowedIn(Log(cfg, ops), key, lo, lo + cfg.window) == n
  }

  /** If pauses fill the window exactly, bursts at both ends of the interval and after every pause reach the maximum. */
  lemma MostAtBothEnds(cfg: Config, key: string) returns (ops: seq<Op>, lo: int)
    requires 0 <= cfg.window <= RETENTION && cfg.window % PAUSE == 0
    ensures AllowsIn(cfg, key, ops, lo, Most(cfg))
  {
    var w, q := cfg.window, cfg.window / PAUSE;
    lo := w + 1;
    FirstCall(cfg, key, lo, lo + w, 0);
    var last;
    ops, last := ManyBursts(cfg, key, lo, lo + w, [AllowCall(key, 0)], 0, Attempt(1, 0, false, ZERO), 0, lo, q);
    assert Burst(cfg) * (q + 1) == Burst(cfg) * q + Burst(cfg);
  }

  /** Otherwise all but the first call of one window and then as many bursts as fit do. */
  lemma MostAfterFirst(cfg: Config, key: string) returns (ops: seq<Op>, lo: int)
    requires cfg.window >= 0 && cfg.window % PAUSE != 0
    ensures AllowsIn(cfg, key, ops, lo, Most(cfg))
  {
    var w, b, q := cfg.window, Burst(cfg), cfg.window / PAUSE;
    lo := w;
    var e := Attempt(1, 0, false, ZERO);
    FirstCall(cfg, key, lo, lo + w, 0);
    ops := FillUp(cfg, key, lo, lo + w, [AllowCall(key, 0)], 0, e, 0, w, b - 1);
    var last;
    ops, last := ManyBursts(cfg, key, lo, lo + w, ops, w, e.(count := b), b - 1, w + 1, q);
    assert b * (q + 1) == b * q + b;
  }

  /** And if the window outlives its entry, all but its first call fall on the moment at which the entry is swept and the
      first of the bursts follows. */
  lemma MostAfterSweep(cfg: Config, key: string) returns (ops: seq<Op>, lo: int)
    requires cfg.window > RETENTION && cfg.window % PAUSE == 0
    ensures AllowsIn(cfg, key, ops, lo, Most(cfg))
  {
    var w, b, q := cfg.window, Burst(cfg), cfg.window / PAUSE;
    lo := RETENTION + 1;
    var e := Attempt(1, 0, false, ZERO);
    FirstCall(cfg, key, lo, lo + w, 0);
    ops := FillUp(cfg, key, lo, lo + w, [AllowCall(key, 0)], 0, e, 0, lo, b - 1);
    ops := SweepAndBurst(cfg, key, lo, lo + w, ops, lo, e.(count := b), b - 1, lo);
    var last;
    ops, last := ManyBursts(cfg, key, lo, lo + w, ops, lo, Attempt(b + 1, lo, true, lo), b - 1 + b, lo + PAUSE, q - 1);
  }

  lemma MostReached(cfg: Config, key: string) returns (ops: seq<Op>, lo: int)
    ensures AllowsIn(cfg, key, ops, lo, Most(cfg))
  {
    if cfg.window < 0 {
      ops, lo := [], 0;
    } else if cfg.window % PAUSE != 0 {
      ops, lo := MostAfterFirst(cfg, key);
    } else if cfg.window <= RETENTION {
      ops, lo := MostAtBothEnds(cfg, key);
    } else {
      ops, lo := MostAfterSweep(cfg, key);
    }
  }

  ghost predicate AtMost(cfg: Config, ops: seq<Op>, key: string, lo: int, n: int) {
    AllowedIn(Log(cfg, ops), key, lo, lo + cfg.window) <= n
  }

  /** No run without a reset lets more than `n` calls through in an interval as long as the window. */
  ghost predicate Bounded(cfg: Config, n: int) {
    forall ops, key, lo :: Ordered(ops) && NoResetOf(ops, key) ==> AtMost(cfg, ops, key, lo, n)
  }

  /** `Most` is the exact maximum over all runs, for every configuration and with sweeps at arbitrary times. */
  lemma MostIsExact(cfg: Config, n: int)
    ensures Bounded(cfg, n) <==> n >= Most(cfg)
  {
    if n >= Most(cfg) {
      forall ops, key, lo | Ordered(ops) && NoResetOf(ops, key)
        ensures AtMost(cfg, ops, key, lo, n)
      {
        AtMostMost(cfg, ops, key, lo);
      }
    } else {
      var ops, lo := MostReached(cfg, "key");
      assert !AtMost(cfg, ops, "key", lo, n);
    }
  }

  /** Twice the limit is a bound exactly for windows up to fifteen minutes and a nanosecond, or thirty minutes and a
      nanosecond if a window allows one call. */
  lemma TwoBurstsExactly(cfg: Config)
    ensures Bounded(cfg, 2 * Burst(cfg)) <==> cfg.window <= PAUSE || (Burst(cfg) == 1 && cfg.window < 2 * PAUSE)
  {
    MostIsExact(cfg, 2 * Burst(cfg));
    MostIn(cfg);
  }

  /** Every interval falls short of two bursts exactly when the window is no longer than a block. */
  lemma ShortOfTwoBurstsExactly(cfg: Config)
    ensures Bounded(cfg, 2 * Burst(cfg) - 1) <==> cfg.window <= BLOCK
  {
    MostIsExact(cfg, 2 * Burst(cfg) - 1);
    MostIn(cfg);
  }

  /** The maximum for windows up to a pause, up to two, and from two on. */
  lemma MostIn(cfg: Config)
    ensures 0 < cfg.window < PAUSE ==> Most(cfg) == 2 * Burst(cfg) - 1
    ensures cfg.window == 0 ==> Most(cfg) == Burst(cfg)
    ensures cfg.window == PAUSE ==> Most(cfg) == 2 * Burst(cfg)
    ensures PAUSE < cfg.window < 2 * PAUSE ==> Most(cfg) == 3 * Burst(cfg) - 1
    ensures cfg.window >= 2 * PAUSE ==> Most(cfg) >= 3 * Burst(cfg)
  {
    if cfg.window >= 2 * PAUSE {
      BeforePause(cfg, 0);
      BeforePause(cfg, PAUSE);
      BeforeRises(cfg, 2 * PAUSE, cfg.window);
    } else if cfg.window >= PAUSE {
      BeforePause(cfg, cfg.window - PAUSE);
    }
  }

  /** With a window over forty-five minutes a sweep can drop an entry whose block still stands. */
  lemma SweepObserved(cfg: Config, key: string) returns (ops: seq<Op>)
    requires cfg.window > 45 * MINUTE
    ensures Ordered(ops) && Log(cfg, ops) != Log(cfg, WithoutSweeps(ops))
  {
    var t := 45 * MINUTE + 1;
    var e := Attempt(1, 0, false, ZERO);
    FirstCall(cfg, key, 0, 0, 0);
    var calls := FillUp(cfg, key, 0, 0, [AllowCall(key, 0)], 0, e, 1, t, Burst(cfg) - 1);
    OneMore(cfg, key, 0, 0, calls, t, e.(count := Burst(cfg)), 1, t);
    calls := calls + [AllowCall(key, t)];
    SweepUnblocks(cfg, key, calls, Attempt(Burst(cfg) + 1, 0, true, t));
    ops := calls + [SweepTick(RETENTION + 1)] + [AllowCall(key, RETENTION + 1)];
  }

  lemma SweepUnblocks(cfg: Config, key: string, calls: seq<Op>, e: Attempt)
    requires Reaches(cfg, key, 0, 0, calls, 45 * MINUTE + 1, e, 1) && NoSweeps(calls)
    requires e.blocked && e.firstTime == 0 && e.blockTime == 45 * MINUTE + 1
    ensures var ops := calls + [SweepTick(RETENTION + 1)] + [AllowCall(key, RETENTION + 1)];
            Ordered(ops) && Log(cfg, ops) != Log(cfg, WithoutSweeps(ops))
  {
    var later := RETENTION + 1;
    var swept := calls + [SweepTick(later)];
    var ops, plain := swept + [AllowCall(key, later)], calls + [AllowCall(key, later)];
    RunNext(cfg, calls, SweepTick(later));
    RunNext(cfg, swept, AllowCall(key, later));
    RunNext(cfg, calls, AllowCall(key, later));
    assert Lookup(Run(cfg, swept), key) == None;
    DroppedLast(calls, key, later);
    var n := |Log(cfg, calls)|;
    assert Log(cfg, ops)[n] == Call(key, later, true);
    assert Log(cfg, plain)[n] == Call(key, later, false);
  }

  lemma DroppedLast(calls: seq<Op>, key: string, now: int)
    requires NoSweeps(calls)
    ensures WithoutSweeps(calls + [SweepTick(now)] + [AllowCall(key, now)]) == calls + [AllowCall(key, now)]
  {
    var swept := calls + [SweepTick(now)];
    var ops := swept + [AllowCall(key, now)];
    NothingDropped(calls);
    assert swept[..|calls|] == calls;
    assert ops[..|swept|] == swept;
  }

  lemma {:induction false} NothingDropped(ops: seq<Op>)
    requires NoSweeps(ops)
    ensures WithoutSweeps(ops) == ops
  {
    if ops == [] {
    } else {
      NothingDropped(ops[..|ops| - 1]);
    }
  }

  /** Sweeps are unobservable in all runs exactly when the window is at most forty-five minutes. */
  lemma SweepsUnobservableExactly(cfg: Config)
    ensures cfg.window <= 45 * MINUTE <==>
            forall ops :: Ordered(ops) ==> Log(cfg, ops) == Log(cfg, WithoutSweeps(ops))
  {
    if cfg.window <= 45 * MINUTE {
      forall ops | Ordered(ops)
        ensures Log(cfg, ops) == Log(cfg, WithoutSweeps(ops))
      {
        SweepsUnobservable(cfg, ops);
      }
    } else {
      var ops := SweepObserved(cfg, "key");
    }
  }
}
