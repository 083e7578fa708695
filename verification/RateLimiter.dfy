/** The in-memory rate limiter: a fixed window of attempts per key, a block of fifteen minutes once they are
    used up, and a cleaner that drops old entries. Time is in nanoseconds. */
module RateLimiter {
  import opened Options

  const MINUTE: int := 60_000_000_000
  const BLOCK: int := 15 * MINUTE
  const RETENTION: int := 60 * MINUTE

  datatype Config = Config(maxRetries: int, window: int)

  datatype Attempt = Attempt(count: int, firstTime: int, blocked: bool, blockTime: int)

  /** The zero time, which a new entry has as its block time. */
  const ZERO: int := 0

  function Lookup(attempts: map<string, Attempt>, key: string): Option<Attempt> {
    if key in attempts then Some(attempts[key]) else None
  }

  datatype Decision = Decision(allowed: bool, entry: Attempt)

  /** The answer to a call and the entry that it leaves behind. */
  function Decide(cfg: Config, entry: Option<Attempt>, now: int): Decision {
    match entry
    case None => Decision(true, Attempt(1, now, false, ZERO))
    case Some(e) =>
      if e.blocked then
        if now - e.blockTime > BLOCK then Decision(true, Attempt(1, now, false, e.blockTime))
        else Decision(false, e)
      else if now - e.firstTime > cfg.window then Decision(true, Attempt(1, now, false, e.blockTime))
      else if e.count + 1 > cfg.maxRetries then Decision(false, Attempt(e.count + 1, e.firstTime, true, now))
      else Decision(true, e.(count := e.count + 1))
  }

  /** The entries that a sweep keeps. */
  function Swept(attempts: map<string, Attempt>, now: int): map<string, Attempt> {
    map key | key in attempts && now - attempts[key].firstTime <= RETENTION :: attempts[key]
  }

  class InMemoryRateLimiter {
    const cfg: Config
    var attempts: map<string, Attempt>

    constructor (maxRetries: int, window: int)
      ensures cfg == Config(maxRetries, window) && attempts == map[]
    {
      cfg := Config(maxRetries, window);
      attempts := map[];
    }

    method Allow(key: string, now: int) returns (allowed: bool)
      modifies this
      ensures var d := Decide(cfg, Lookup(old(attempts), key), now);
              allowed == d.allowed && attempts == old(attempts)[key := d.entry]
      ensures allowed ==>
                && !attempts[key].blocked
                && (|| attempts[key].firstTime == now
                    || (key in old(attempts) && attempts[key].count == old(attempts)[key].count + 1 <= cfg.maxRetries))
      ensures !allowed ==>
                && key in old(attempts) && attempts[key].blocked && now - attempts[key].blockTime <= 15 * MINUTE
                && attempts[key].blockTime == if old(attempts)[key].blocked then old(attempts)[key].blockTime else now
    {
      if key !in attempts {
        attempts := attempts[key := Attempt(1, now, false, ZERO)];
        return true;
      }
      var info := attempts[key];
      if info.blocked {
        if now - info.blockTime > BLOCK {
          attempts := attempts[key := info.(blocked := false, count := 1, firstTime := now)];
          return true;
        }
        assert attempts == attempts[key := info];
        return false;
      }
      if now - info.firstTime > cfg.window {
        attempts := attempts[key := info.(count := 1, firstTime := now)];
        return true;
      }
      info := info.(count := info.count + 1);
      if info.count > cfg.maxRetries {
        attempts := attempts[key := info.(blocked := true, blockTime := now)];
        return false;
      }
      attempts := attempts[key := info];
      return true;
    }

    method Reset(key: string)
      modifies this
      ensures attempts == old(attempts) - {key}
    {
      attempts := attempts - {key};
    }

    /** One tick of the cleaner. */
    method Sweep(now: int)
      modifies this
      ensures attempts == Swept(old(attempts), now)
      ensures forall key :: key in attempts <==> key in old(attempts) && now - old(attempts)[key].firstTime <= 60 * MINUTE
      ensures forall key :: key in attempts ==> attempts[key] == old(attempts)[key]
    {
      var rest := attempts.Keys;
      while rest != {}
        invariant rest <= attempts.Keys
        invariant forall key :: key in attempts ==> key in old(attempts) && attempts[key] == old(attempts)[key]
        invariant forall key :: key in old(attempts) && key !in attempts ==> now - old(attempts)[key].firstTime > RETENTION
        invariant forall key :: key in attempts && key !in rest ==> now - attempts[key].firstTime <= RETENTION
      {
        var key :| key in rest;
        if now - attempts[key].firstTime > RETENTION {
          attempts := attempts - {key};
        }
        rest := rest - {key};
      }
    }
  }

  // Runs of the limiter.

  datatype Op = AllowCall(key: string, now: int) | ResetCall(key: string, now: int) | SweepTick(now: int)

  function Step(cfg: Config, attempts: map<string, Attempt>, op: Op): map<string, Attempt> {
    match op
    case AllowCall(key, now) => attempts[key := Decide(cfg, Lookup(attempts, key), now).entry]
    case ResetCall(key, _) => attempts - {key}
    case SweepTick(now) => Swept(attempts, now)
  }

  function Run(cfg: Config, ops: seq<Op>): map<string, Attempt> {
    if ops == [] then map[] else Step(cfg, Run(cfg, ops[..|ops| - 1]), ops[|ops| - 1])
  }

  datatype Call = Call(key: string, now: int, allowed: bool)

  /** The calls of a run with their answers. */
  function Log(cfg: Config, ops: seq<Op>): seq<Call> {
    if ops == [] then []
    else
      var before, op := ops[..|ops| - 1], ops[|ops| - 1];
      Log(cfg, before) +
      if op.AllowCall? then [Call(op.key, op.now, Decide(cfg, Lookup(Run(cfg, before), op.key), op.now).allowed)] else []
  }

  /** The clock never goes back. */
  ghost predicate Ordered(ops: seq<Op>) {
    forall i, j :: 0 <= i < j < |ops| ==> ops[i].now <= ops[j].now
  }

  ghost predicate UpTo(ops: seq<Op>, now: int) {
    forall i :: 0 <= i < |ops| ==> ops[i].now <= now
  }

  lemma OrderedPrefix(ops: seq<Op>)
    requires Ordered(ops) && ops != []
    ensures Ordered(ops[..|ops| - 1]) && UpTo(ops[..|ops| - 1], ops[|ops| - 1].now)
  {
  }

  function WithoutSweeps(ops: seq<Op>): seq<Op> {
    if ops == [] then []
    else
      var before, op := WithoutSweeps(ops[..|ops| - 1]), ops[|ops| - 1];
      if op.SweepTick? then before else before + [op]
  }

  // Sweeps cannot be observed while the window is at most forty-five minutes.

  /** Entries that runs produce by time `now`: a block falls into the window that it closes. */
  ghost predicate Plausible(cfg: Config, entry: Option<Attempt>, now: int) {
    entry.Some? ==>
      && entry.value.firstTime <= now
      && (entry.value.blocked ==> entry.value.firstTime <= entry.value.blockTime <= entry.value.firstTime + cfg.window)
      && (entry.value.blocked ==> entry.value.blockTime <= now)
  }

  /** From `now` on a call finds the entry expired and starts afresh. */
  ghost predicate Expired(cfg: Config, e: Attempt, now: int) {
    if e.blocked then now - e.blockTime > BLOCK else now - e.firstTime > cfg.window
  }

  /** The block time matters only while the entry is blocked. */
  ghost predicate SameView(a: Attempt, b: Attempt) {
    a.count == b.count && a.firstTime == b.firstTime && a.blocked == b.blocked && (a.blocked ==> a.blockTime == b.blockTime)
  }

  /** An entry of the run with sweeps and the same entry of the run without them. */
  ghost predicate Agree(cfg: Config, swept: Option<Attempt>, kept: Option<Attempt>, now: int) {
    && Plausible(cfg, swept, now) && Plausible(cfg, kept, now)
    && match (swept, kept)
       case (None, None) => true
       case (None, Some(e)) => Expired(cfg, e, now)
       case (Some(_), None) => false
       case (Some(a), Some(b)) => SameView(a, b)
  }

  lemma AgreeLater(cfg: Config, swept: Option<Attempt>, kept: Option<Attempt>, now: int, later: int)
    requires Agree(cfg, swept, kept, now) && now <= later
    ensures Agree(cfg, swept, kept, later)
  {
  }

  lemma AgreeDecide(cfg: Config, swept: Option<Attempt>, kept: Option<Attempt>, now: int)
    requires Agree(cfg, swept, kept, now)
    ensures Decide(cfg, swept, now).allowed == Decide(cfg, kept, now).allowed
    ensures Agree(cfg, Some(Decide(cfg, swept, now).entry), Some(Decide(cfg, kept, now).entry), now)
  {
  }

  lemma AgreeSweep(cfg: Config, e: Attempt, kept: Option<Attempt>, now: int)
    requires cfg.window <= 45 * MINUTE && Agree(cfg, Some(e), kept, now) && now - e.firstTime > RETENTION
    ensures Agree(cfg, None, kept, now)
  {
  }

  ghost predicate AllAgree(cfg: Config, swept: map<string, Attempt>, kept: map<string, Attempt>, now: int) {
    forall key :: Agree(cfg, Lookup(swept, key), Lookup(kept, key), now)
  }

  lemma AllAgreeNext(cfg: Config, swept: map<string, Attempt>, kept: map<string, Attempt>, now: int, op: Op)
    requires cfg.window <= 45 * MINUTE && AllAgree(cfg, swept, kept, now) && now <= op.now
    ensures AllAgree(cfg, Step(cfg, swept, op), if op.SweepTick? then kept else Step(cfg, kept, op), op.now)
    ensures op.AllowCall? ==>
              Decide(cfg, Lookup(swept, op.key), op.now).allowed == Decide(cfg, Lookup(kept, op.key), op.now).allowed
  {
    forall key
      ensures Agree(cfg, Lookup(Step(cfg, swept, op), key), Lookup(if op.SweepTick? then kept else Step(cfg, kept, op), key), op.now)
      ensures op.AllowCall? && op.key == key ==>
                Decide(cfg, Lookup(swept, key), op.now).allowed == Decide(cfg, Lookup(kept, key), op.now).allowed
    {
      AgreeLater(cfg, Lookup(swept, key), Lookup(kept, key), now, op.now);
      AgreeDecide(cfg, Lookup(swept, key), Lookup(kept, key), op.now);
      if op.SweepTick? && key in swept && op.now - swept[key].firstTime > RETENTION {
        AgreeSweep(cfg, swept[key], Lookup(kept, key), op.now);
      }
    }
  }

  lemma {:induction false} RunsAgree(cfg: Config, ops: seq<Op>, now: int)
    requires cfg.window <= 45 * MINUTE && Ordered(ops) && UpTo(ops, now)
    ensures AllAgree(cfg, Run(cfg, ops), Run(cfg, WithoutSweeps(ops)), now)
    ensures Log(cfg, ops) == Log(cfg, WithoutSweeps(ops))
  {
    if ops == [] {
    } else {
      var n := |ops| - 1;
      var before, op := ops[..n], ops[n];
      OrderedPrefix(ops);
      RunsAgree(cfg, before, op.now);
      var swept, kept := Run(cfg, before), Run(cfg, WithoutSweeps(before));
      AllAgreeNext(cfg, swept, kept, op.now, op);
      if !op.SweepTick? {
        assert WithoutSweeps(ops)[..|WithoutSweeps(before)|] == WithoutSweeps(before);
      }
      forall key
        ensures Agree(cfg, Lookup(Run(cfg, ops), key), Lookup(Run(cfg, WithoutSweeps(ops)), key), now)
      {
        AgreeLater(cfg, Lookup(Run(cfg, ops), key), Lookup(Run(cfg, WithoutSweeps(ops)), key), op.now, now);
      }
    }
  }

  /** Whenever sweeps happen, the answers are those of the run without any sweep. */
  lemma SweepsUnobservable(cfg: Config, ops: seq<Op>)
    requires cfg.window <= 45 * MINUTE && Ordered(ops)
    ensures Log(cfg, ops) == Log(cfg, WithoutSweeps(ops))
  {
    if ops != [] {
      RunsAgree(cfg, ops, ops[|ops| - 1].now);
    }
  }
}
