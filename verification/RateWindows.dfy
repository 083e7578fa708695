/** What the answers of the rate limiter to one key look like: windows that allow a burst of calls, and blocks of fifteen
    minutes after those that were overrun. */
module RateWindows {
  import opened Options
  import opened RateLimiter
  import opened RateBounds

  /** The calls for `key`. */
  function CallsFor(log: seq<Call>, key: string): seq<Call> {
    if log == [] then []
    else
      var before, c := CallsFor(log[..|log| - 1], key), log[|log| - 1];
      if c.key == key then before + [c] else before
  }

  lemma CallsNext(log: seq<Call>, key: string, c: Call)
    ensures CallsFor(log + [c], key) == CallsFor(log, key) + if c.key == key then [c] else []
  {
    assert (log + [c])[..|log|] == log;
  }

  /** The answer that a call for `key` gets after `ops`. */
  ghost predicate Allows(cfg: Config, ops: seq<Op>, key: string, now: int) {
    var log := Log(cfg, ops + [AllowCall(key, now)]);
    log != [] && log[|log| - 1] == Call(key, now, true)
  }

  lemma AnswerIs(cfg: Config, ops: seq<Op>, key: string, now: int)
    ensures Allows(cfg, ops, key, now) <==> Decide(cfg, Lookup(Run(cfg, ops), key), now).allowed
    ensures CallsFor(Log(cfg, ops + [AllowCall(key, now)]), key) ==
            CallsFor(Log(cfg, ops), key) + [Call(key, now, Allows(cfg, ops, key, now))]
  {
    assert (ops + [AllowCall(key, now)])[..|ops|] == ops;
    CallsNext(Log(cfg, ops), key, Call(key, now, Decide(cfg, Lookup(Run(cfg, ops), key), now).allowed));
  }

  lemma OtherOp(cfg: Config, ops: seq<Op>, op: Op, key: string)
    requires !(op.AllowCall? && op.key == key)
    ensures CallsFor(Log(cfg, ops + [op]), key) == CallsFor(Log(cfg, ops), key)
    ensures Lookup(Run(cfg, ops + [op]), key) == Lookup(Run(cfg, ops), key) || Lookup(Run(cfg, ops + [op]), key).None?
    ensures !op.SweepTick? && !(op.ResetCall? && op.key == key) ==> Lookup(Run(cfg, ops + [op]), key) == Lookup(Run(cfg, ops), key)
  {
    assert (ops + [op])[..|ops|] == ops;
    if op.AllowCall? {
      CallsNext(Log(cfg, ops), key, Call(op.key, op.now, Decide(cfg, Lookup(Run(cfg, ops), op.key), op.now).allowed));
    } else {
      assert Log(cfg, ops) + [] == Log(cfg, ops);
    }
  }

  // Windows.

  /** Until when call `i` belongs to the window that call `o` opened: while the window is open or, once it has been
      overrun, for fifteen minutes from the first call beyond the burst. */
  function Limit(cfg: Config, calls: seq<Call>, o: nat, i: int): int
    requires o < i <= |calls|
  {
    if i - o <= Burst(cfg) then calls[o].now + cfg.window else calls[o + Burst(cfg)].now + 15 * MINUTE
  }

  /** Call `i` falls into the window that call `opener[i]` opened: into that of the call before it or, beyond its limit,
      into a new one. The burst of each window is allowed and the rest is denied. */
  ghost predicate Placed(cfg: Config, calls: seq<Call>, opener: seq<nat>, i: nat)
    requires i < |calls| == |opener|
  {
    && opener[i] <= i && (i == 0 || opener[i - 1] < i)
    && (opener[i] == if i == 0 || calls[i].now > Limit(cfg, calls, opener[i - 1], i) then i else opener[i - 1])
    && (calls[i].allowed <==> i - opener[i] < Burst(cfg))
  }

  ghost predicate Windows(cfg: Config, calls: seq<Call>, opener: seq<nat>) {
    |calls| == |opener| && forall i :: 0 <= i < |calls| ==> Placed(cfg, calls, opener, i)
  }

  lemma PlacedStays(cfg: Config, calls: seq<Call>, opener: seq<nat>, i: nat, c: Call, o: nat)
    requires i < |calls| == |opener| && Placed(cfg, calls, opener, i)
    ensures Placed(cfg, calls + [c], opener + [o], i)
  {
  }

  lemma WindowsNext(cfg: Config, calls: seq<Call>, opener: seq<nat>, c: Call, o: nat)
    requires Windows(cfg, calls, opener) && Placed(cfg, calls + [c], opener + [o], |calls|)
    ensures Windows(cfg, calls + [c], opener + [o])
  {
    forall i | 0 <= i < |calls| + 1
      ensures Placed(cfg, calls + [c], opener + [o], i)
    {
      if i < |calls| {
        PlacedStays(cfg, calls, opener, i, c, o);
      }
    }
  }

  /** The entry of a key after its calls, the last of which falls into the window that call `o` opened. */
  ghost predicate Tracks(cfg: Config, calls: seq<Call>, o: nat, e: Attempt) {
    && o < |calls| && e.firstTime == calls[o].now
    && if |calls| - o <= Burst(cfg) then !e.blocked && e.count == |calls| - o
       else e.blocked && e.blockTime == calls[o + Burst(cfg)].now
  }

  lemma TracksNext(cfg: Config, calls: seq<Call>, o: nat, e: Attempt, key: string, now: int)
    requires Tracks(cfg, calls, o, e)
    ensures var d := Decide(cfg, Some(e), now);
            var after := calls + [Call(key, now, d.allowed)];
            if now > Limit(cfg, calls, o, |calls|) then d.allowed && Tracks(cfg, after, |calls|, d.entry)
            else (d.allowed <==> |calls| - o < Burst(cfg)) && Tracks(cfg, after, o, d.entry)
  {
  }

  /** No entry for the key is ever taken away. */
  ghost predicate Undisturbed(ops: seq<Op>, key: string) {
    NoResetOf(ops, key) && NoSweeps(ops)
  }

  ghost predicate Explains(cfg: Config, calls: seq<Call>, opener: seq<nat>, entry: Option<Attempt>) {
    && Windows(cfg, calls, opener)
    && if calls == [] then entry.None? else entry.Some? && Tracks(cfg, calls, opener[|opener| - 1], entry.value)
  }

  lemma ExplainsNext(cfg: Config, calls: seq<Call>, opener: seq<nat>, entry: Option<Attempt>, key: string, now: int)
    returns (o: nat)
    requires Explains(cfg, calls, opener, entry)
    ensures var d := Decide(cfg, entry, now);
            Explains(cfg, calls + [Call(key, now, d.allowed)], opener + [o], Some(d.entry))
  {
    var c := Call(key, now, Decide(cfg, entry, now).allowed);
    if calls == [] {
      o := 0;
    } else {
      var last := opener[|opener| - 1];
      TracksNext(cfg, calls, last, entry.value, key, now);
      o := if now > Limit(cfg, calls, last, |calls|) then |calls| else last;
    }
    WindowsNext(cfg, calls, opener, c, o);
  }

  lemma {:induction false} RunExplained(cfg: Config, ops: seq<Op>, key: string) returns (opener: seq<nat>)
    requires Undisturbed(ops, key)
    ensures Explains(cfg, CallsFor(Log(cfg, ops), key), opener, Lookup(Run(cfg, ops), key))
  {
    if ops == [] {
      opener := [];
    } else {
      var before, op := ops[..|ops| - 1], ops[|ops| - 1];
      opener := RunExplained(cfg, before, key);
      assert ops == before + [op];
      if op.AllowCall? && op.key == key {
        AnswerIs(cfg, before, key, op.now);
        var o := ExplainsNext(cfg, CallsFor(Log(cfg, before), key), opener, Lookup(Run(cfg, before), key), key, op.now);
        opener := opener + [o];
      } else {
        OtherOp(cfg, before, op, key);
      }
    }
  }

  /** Where the limiter has no entry for a key, everything that follows is answered as in a new run. */
  lemma {:induction false} StartsOver(cfg: Config, before: seq<Op>, rest: seq<Op>, key: string)
    requires key !in Run(cfg, before)
    ensures Lookup(Run(cfg, before + rest), key) == Lookup(Run(cfg, rest), key)
    ensures CallsFor(Log(cfg, before + rest), key) == CallsFor(Log(cfg, before), key) + CallsFor(Log(cfg, rest), key)
  {
    if rest == [] {
      assert before + rest == before;
    } else {
      var rest', op := rest[..|rest| - 1], rest[|rest| - 1];
      StartsOver(cfg, before, rest', key);
      assert rest == rest' + [op] && before + rest == before + rest' + [op];
      SameNext(cfg, before + rest', rest', op, key, CallsFor(Log(cfg, before), key));
    }
  }

  lemma Associates<T>(a: seq<T>, b: seq<T>, c: seq<T>)
    ensures a + b + c == a + (b + c)
  {
  }

  lemma SameNext(cfg: Config, a: seq<Op>, b: seq<Op>, op: Op, key: string, calls: seq<Call>)
    requires Lookup(Run(cfg, a), key) == Lookup(Run(cfg, b), key)
    requires CallsFor(Log(cfg, a), key) == calls + CallsFor(Log(cfg, b), key)
    ensures Lookup(Run(cfg, a + [op]), key) == Lookup(Run(cfg, b + [op]), key)
    ensures CallsFor(Log(cfg, a + [op]), key) == calls + CallsFor(Log(cfg, b + [op]), key)
  {
    RunNext(cfg, a, op);
    RunNext(cfg, b, op);
    if op.AllowCall? && op.key == key {
      AnswerIs(cfg, a, key, op.now);
      AnswerIs(cfg, b, key, op.now);
      Associates(calls, CallsFor(Log(cfg, b), key), [Call(key, op.now, Allows(cfg, b, key, op.now))]);
    } else {
      OtherOp(cfg, a, op, key);
      OtherOp(cfg, b, op, key);
    }
  }

  /** Once the limiter has no entry for a key, as at the start or after a reset, the calls for it fall into windows,
      whatever is done with other keys, until it is reset or a sweep comes. */
  lemma CallsFallIntoWindows(cfg: Config, before: seq<Op>, rest: seq<Op>, key: string) returns (calls: seq<Call>, opener: seq<nat>)
    requires key !in Run(cfg, before) && Undisturbed(rest, key)
    ensures CallsFor(Log(cfg, before + rest), key) == CallsFor(Log(cfg, before), key) + calls
    ensures Windows(cfg, calls, opener)
  {
    StartsOver(cfg, before, rest, key);
    calls := CallsFor(Log(cfg, rest), key);
    opener := RunExplained(cfg, rest, key);
  }

  lemma {:induction false} WithoutSweepsUndisturbed(ops: seq<Op>, key: string)
    requires NoResetOf(ops, key)
    ensures Undisturbed(WithoutSweeps(ops), key)
  {
    if ops == [] {
    } else {
      WithoutSweepsUndisturbed(ops[..|ops| - 1], key);
    }
  }

  /** With a window of at most forty-five minutes, sweeps make no difference. */
  lemma SweptCallsFallIntoWindows(cfg: Config, ops: seq<Op>, key: string) returns (opener: seq<nat>)
    requires cfg.window <= 45 * MINUTE && Ordered(ops) && NoResetOf(ops, key)
    ensures Windows(cfg, CallsFor(Log(cfg, ops), key), opener)
  {
    SweepsUnobservable(cfg, ops);
    WithoutSweepsUndisturbed(ops, key);
    opener := RunExplained(cfg, WithoutSweeps(ops), key);
  }

  ghost predicate SameTimes(a: seq<Call>, b: seq<Call>) {
    |a| == |b| && forall i :: 0 <= i < |a| ==> a[i].now == b[i].now
  }

  /** The windows and with them all answers follow from the times of the calls. */
  lemma {:induction false} WindowsDetermined(cfg: Config, a: seq<Call>, b: seq<Call>, oa: seq<nat>, ob: seq<nat>, i: nat)
    requires Windows(cfg, a, oa) && Windows(cfg, b, ob) && SameTimes(a, b) && i < |a|
    ensures oa[i] == ob[i] && a[i].allowed == b[i].allowed
  {
    assert Placed(cfg, a, oa, i) && Placed(cfg, b, ob, i);
    if i == 0 {
    } else {
      WindowsDetermined(cfg, a, b, oa, ob, i - 1);
    }
  }

  // Blocks.

  /** The last call for a blocked key was denied. */
  lemma {:induction false} BlockedAfterDenial(cfg: Config, ops: seq<Op>, key: string)
    requires key in Run(cfg, ops)
    ensures var calls := CallsFor(Log(cfg, ops), key);
            calls != [] && (Run(cfg, ops)[key].blocked ==> !calls[|calls| - 1].allowed)
  {
    var before, op := ops[..|ops| - 1], ops[|ops| - 1];
    assert ops == before + [op];
    if op.AllowCall? && op.key == key {
      AnswerIs(cfg, before, key, op.now);
    } else {
      OtherOp(cfg, before, op, key);
      BlockedAfterDenial(cfg, before, key);
    }
  }

  /** The first denial after an allowed call blocks the key from the time of the call. */
  lemma DenialBlocks(cfg: Config, ops: seq<Op>, key: string, t: int)
    requires var calls := CallsFor(Log(cfg, ops), key);
             calls != [] && calls[|calls| - 1].allowed && !Allows(cfg, ops, key, t)
    ensures var entry := Lookup(Run(cfg, ops + [AllowCall(key, t)]), key);
            entry.Some? && entry.value.blocked && entry.value.blockTime == t && t - entry.value.firstTime <= cfg.window
  {
    AnswerIs(cfg, ops, key, t);
    RunNext(cfg, ops, AllowCall(key, t));
    BlockedAfterDenial(cfg, ops, key);
  }

  /** The entry stands, or it was swept when the block was over. */
  ghost predicate Blocked(cfg: Config, entry: Option<Attempt>, t: int, now: int) {
    match entry
    case None => now > t + 15 * MINUTE
    case Some(e) => e.blocked && e.blockTime == t && t - e.firstTime <= cfg.window
  }

  lemma BlockedNext(cfg: Config, ops: seq<Op>, key: string, t: int, now: int, op: Op)
    requires Blocked(cfg, Lookup(Run(cfg, ops), key), t, now) && now <= op.now
    requires op.AllowCall? && op.key == key ==> op.now <= t + 15 * MINUTE
    requires !(op.ResetCall? && op.key == key) && (op.SweepTick? ==> cfg.window <= 45 * MINUTE)
    ensures Blocked(cfg, Lookup(Run(cfg, ops + [op]), key), t, op.now)
  {
    RunNext(cfg, ops, op);
  }

  /** Calls for the key come within the fifteen minutes. */
  ghost predicate NoCallAfter(ops: seq<Op>, key: string, time: int) {
    forall i :: 0 <= i < |ops| && ops[i].AllowCall? && ops[i].key == key ==> ops[i].now <= time
  }

  lemma {:induction false} StaysBlocked(cfg: Config, ops: seq<Op>, key: string, t: int, between: seq<Op>, now: int)
    requires Blocked(cfg, Lookup(Run(cfg, ops), key), t, t)
    requires NoResetOf(between, key) && (NoSweeps(between) || cfg.window <= 45 * MINUTE)
    requires NoCallAfter(between, key, t + 15 * MINUTE)
    requires Ordered(between) && UpTo(between, now) && t <= now && forall i :: 0 <= i < |between| ==> t <= between[i].now
    ensures Blocked(cfg, Lookup(Run(cfg, ops + between), key), t, now)
  {
    if between == [] {
      assert ops + between == ops;
    } else {
      var before, op := between[..|between| - 1], between[|between| - 1];
      OrderedPrefix(between);
      StaysBlocked(cfg, ops, key, t, before, op.now);
      assert ops + between == ops + before + [op];
      BlockedNext(cfg, ops + before, key, t, op.now, op);
    }
  }

  /** Once a call for a key is denied after an allowed one, every call for it is denied for fifteen minutes, and the first
      one after that is allowed, unless the key is reset in between or, with a window of more than forty-five minutes, a
      sweep comes. */
  lemma BlockLastsFifteenMinutes(cfg: Config, ops: seq<Op>, key: string, t: int, between: seq<Op>, u: int)
    requires var calls := CallsFor(Log(cfg, ops), key);
             calls != [] && calls[|calls| - 1].allowed && !Allows(cfg, ops, key, t)
    requires Ordered(ops + [AllowCall(key, t)] + between + [AllowCall(key, u)])
    requires NoResetOf(between, key) && (NoSweeps(between) || cfg.window <= 45 * MINUTE)
    requires NoCallAfter(between, key, t + 15 * MINUTE)
    ensures Allows(cfg, ops + [AllowCall(key, t)] + between, key, u) <==> u > t + 15 * MINUTE
  {
    var first := ops + [AllowCall(key, t)];
    DenialBlocks(cfg, ops, key, t);
    InOrder(ops, AllowCall(key, t), between, AllowCall(key, u));
    StaysBlocked(cfg, first, key, t, between, u);
    AnswerIs(cfg, first + between, key, u);
  }

  lemma InOrder(ops: seq<Op>, one: Op, between: seq<Op>, two: Op)
    requires Ordered(ops + [one] + between + [two])
    ensures Ordered(between) && UpTo(between, two.now) && one.now <= two.now
    ensures forall i :: 0 <= i < |between| ==> one.now <= between[i].now
  {
    var run, n := ops + [one] + between + [two], |ops|;
    assert run[n] == one && run[|run| - 1] == two;
    forall i | 0 <= i < |between|
      ensures between[i] == run[n + 1 + i]
    {
    }
  }
}
