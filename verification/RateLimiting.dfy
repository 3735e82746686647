/**
 The limiter of internal/httpx/ratelimit.go as a whole: many keys in one table, calls and
 cleanup sweeps in any order, and the mutable object that performs them.
 */
module RateLimiting {
  import opened Prelude
  import opened TokenBucket

  datatype Event = Call(key: string, at: int) | Sweep(at: int)

  ghost predicate Monotone(es: seq<Event>) {
    forall i, j :: 0 <= i <= j < |es| ==> es[i].at <= es[j].at
  }

  function Lookup(m: Table, key: string): Option<Bucket> {
    if key in m then Some(m[key]) else None
  }

  function Expired(c: Config, b: Bucket, now: int): bool {
    now - b.lastSeen > c.ttl
  }

  /** The table after a cleanup pass. */
  function Swept(c: Config, m: Table, now: int): Table {
    map k | k in m && !Expired(c, m[k], now) :: m[k]
  }

  /** The table after a call, and the decision. */
  function Allowed(c: Config, m: Table, key: string, now: int): (Table, Decision) {
    var (b, d) := Serve(c, Lookup(m, key), now);
    (m[key := b], d)
  }

  /** The table after a trace; with `evicting` false the sweeps do nothing. */
  function TableAfter(c: Config, es: seq<Event>, evicting: bool): Table {
    if es == [] then map[]
    else
      var m := TableAfter(c, Init(es), evicting);
      match Last(es)
      case Call(key, at) => Allowed(c, m, key, at).0
      case Sweep(at) => if evicting then Swept(c, m, at) else m
  }

  /** The decision on the call that ends the trace. */
  function Decided(c: Config, es: seq<Event>, evicting: bool): Decision
    requires es != [] && Last(es).Call?
  {
    Allowed(c, TableAfter(c, Init(es), evicting), Last(es).key, Last(es).at).1
  }

  /** A sweep deletes exactly the buckets unseen for longer than the window, and touches no other. */
  lemma SweepsExactly(c: Config, m: Table, now: int, k: string)
    ensures k in Swept(c, m, now) <==> k in m && m[k].lastSeen + c.ttl >= now
    ensures k in Swept(c, m, now) ==> Swept(c, m, now)[k] == m[k]
  {
  }

  // ----- Eviction cannot be observed ------------------------------------------------------

  /** The configured idle window is at least as long as a full refill. */
  lemma TtlCoversRefill(c: Config, elapsed: int)
    requires Configured(c) && c.rate > 0.0 && elapsed > c.ttl
    ensures Accrued(c, elapsed) >= c.burst
  {
    AccruedOverTime(c, elapsed, c.burst);
  }

  /** Two buckets (or their absence) that no call from `now` on can tell apart. */
  ghost predicate Alike(c: Config, evicted: Option<Bucket>, kept: Option<Bucket>, now: int) {
    || evicted == kept
    || (evicted == None && kept.Some? && kept.value.tokens >= 0.0 && Expired(c, kept.value, now))
  }

  lemma AlikeServesAlike(c: Config, evicted: Option<Bucket>, kept: Option<Bucket>, now: int)
    requires Configured(c) && c.rate > 0.0 && Alike(c, evicted, kept, now)
    ensures Serve(c, evicted, now) == Serve(c, kept, now)
  {
    if evicted != kept {
      TtlCoversRefill(c, now - kept.value.lastSeen);
    }
  }

  lemma ServedNonNegative(c: Config, b: Option<Bucket>, now: int)
    requires c.burst >= 1.0 && c.rate >= 0.0
    requires b.Some? ==> b.value.tokens >= 0.0 && b.value.lastSeen <= now
    ensures Serve(c, b, now).0.tokens >= 0.0 && Serve(c, b, now).0.lastSeen == now
  {
    if b.Some? { AccruedMonotone(c, 0, now - b.value.lastSeen); }
  }

  lemma {:induction false} KeptBuckets(c: Config, es: seq<Event>, key: string)
    requires c.burst >= 1.0 && c.rate >= 0.0 && Monotone(es) && es != []
    ensures var b := Lookup(TableAfter(c, es, false), key);
            b.Some? ==> b.value.tokens >= 0.0 && b.value.lastSeen <= Last(es).at
  {
    if |es| > 1 { KeptBuckets(c, Init(es), key); }
    if Last(es).Call? && Last(es).key == key {
      ServedNonNegative(c, Lookup(TableAfter(c, Init(es), false), key), Last(es).at);
    }
  }

  lemma {:induction false} TablesAlike(c: Config, es: seq<Event>, key: string, now: int)
    requires Configured(c) && c.rate > 0.0 && Monotone(es) && (es != [] ==> Last(es).at <= now)
    ensures Alike(c, Lookup(TableAfter(c, es, true), key), Lookup(TableAfter(c, es, false), key), now)
  {
    if es != [] {
      var before, at := Init(es), Last(es).at;
      TablesAlike(c, before, key, at);
      KeptBuckets(c, es, key);
      AlikeServesAlike(c, Lookup(TableAfter(c, before, true), key), Lookup(TableAfter(c, before, false), key), at);
    }
  }

  /** With a positive rate, no interleaving of sweeps with calls changes a decision or its advice. */
  lemma EvictionInvisible(c: Config, es: seq<Event>)
    requires Configured(c) && c.rate > 0.0 && Monotone(es) && es != [] && Last(es).Call?
    ensures Decided(c, es, true) == Decided(c, es, false)
  {
    TablesAlike(c, Init(es), Last(es).key, Last(es).at);
    AlikeServesAlike(c, Lookup(TableAfter(c, Init(es), true), Last(es).key),
                     Lookup(TableAfter(c, Init(es), false), Last(es).key), Last(es).at);
  }

  // ----- Without a positive rate it can ---------------------------------------------------

  /** `n` calls of one key at time 0. */
  function Volley(n: nat): seq<Event> {
    if n == 0 then [] else Volley(n - 1) + [Call("a", 0)]
  }

  /** A volley, a sweep just past the idle window, and one more call. */
  function IdleThenCall(c: Config, n: nat): seq<Event> {
    Volley(n) + [Sweep(c.ttl + 1), Call("a", c.ttl + 1)]
  }

  /** At one instant nothing accrues: a call takes one token. */
  lemma TakesOne(c: Config, b: Bucket)
    requires 1.0 <= b.tokens <= c.burst
    ensures Serve(c, Some(b), b.lastSeen) == (Bucket(b.tokens - 1.0, b.lastSeen), Admit)
  {
    AccruedAdds(c, 0, 0);
  }

  lemma {:induction false} VolleySpends(c: Config, n: nat, evicting: bool)
    requires n >= 1 && n as real <= c.burst
    ensures TableAfter(c, Volley(n), evicting) == map["a" := Bucket(c.burst - n as real, 0)]
  {
    assert Init(Volley(n)) == Volley(n - 1) && Last(Volley(n)) == Call("a", 0);
    if n == 1 {
      assert TableAfter(c, Volley(0), evicting) == map[];
    } else {
      VolleySpends(c, n - 1, evicting);
      TakesOne(c, Bucket(c.burst - (n - 1) as real, 0));
    }
  }

  /** A spent bucket that does not refill stays below one token. */
  lemma StaysSpent(c: Config, b: Bucket, at: int)
    requires c.burst >= 1.0 && c.rate <= 0.0 && b.tokens < 1.0 && at >= b.lastSeen
    ensures Serve(c, Some(b), at).1 != Admit
  {
    assert (at - b.lastSeen) as real / SECOND as real * c.rate <= 0.0;
  }

  /** When the bucket never refills, idling past the window hands out a full bucket again. */
  lemma EvictionVisible(c: Config)
    requires Configured(c) && c.rate <= 0.0
    ensures var es := IdleThenCall(c, c.burst.Floor);
      es != [] && Last(es).Call? && Decided(c, es, true) == Admit && Decided(c, es, false) != Admit
  {
    var n, at := c.burst.Floor, c.ttl + 1;
    var es := IdleThenCall(c, n);
    var swept := Volley(n) + [Sweep(at)];
    var left := c.burst - n as real;
    assert Init(es) == swept && Init(swept) == Volley(n);
    VolleySpends(c, n, true);
    VolleySpends(c, n, false);
    assert TableAfter(c, swept, false) == map["a" := Bucket(left, 0)];
    assert "a" !in TableAfter(c, swept, true);
    StaysSpent(c, Bucket(left, 0), at);
  }

  /** Eviction is invisible on every trace exactly for the limiters that refill. */
  lemma EvictionInvisibleExactly(c: Config)
    requires Configured(c)
    ensures c.rate > 0.0 <==>
            forall es :: Monotone(es) && es != [] && Last(es).Call? ==> Decided(c, es, true) == Decided(c, es, false)
  {
    if c.rate > 0.0 {
      forall es | Monotone(es) && es != [] && Last(es).Call? ensures Decided(c, es, true) == Decided(c, es, false) {
        EvictionInvisible(c, es);
      }
    } else {
      EvictionVisible(c);
      var es := IdleThenCall(c, c.burst.Floor);
      VolleyAtZero(c.burst.Floor);
      assert Monotone(es);
    }
  }

  lemma {:induction false} VolleyAtZero(n: nat)
    ensures forall i :: 0 <= i < |Volley(n)| ==> Volley(n)[i].at == 0
  {
    if n > 0 { VolleyAtZero(n - 1); }
  }

  // ----- Keys do not interfere: the limiter is one bucket per key ---------------------------

  /** The times of the calls a key makes in a trace. */
  function Arrivals(es: seq<Event>, key: string): seq<int> {
    if es == [] then []
    else Arrivals(Init(es), key) + match Last(es)
                                   case Call(k, at) => if k == key then [at] else []
                                   case Sweep(_) => []
  }

  lemma {:induction false} TableIsBuckets(c: Config, es: seq<Event>, key: string)
    ensures Lookup(TableAfter(c, es, false), key) == After(c, Arrivals(es, key))
  {
    if es != [] {
      TableIsBuckets(c, Init(es), key);
      assert Last(es).Call? && Last(es).key == key ==>
          Init(Arrivals(es, key)) == Arrivals(Init(es), key);
      assert !(Last(es).Call? && Last(es).key == key) ==>
          Arrivals(es, key) == Arrivals(Init(es), key);
    }
  }

  /** Whatever other keys do and whenever sweeps run, a call is decided by its own key's arrivals alone. */
  lemma DecidedByOwnArrivals(c: Config, es: seq<Event>)
    requires Configured(c) && c.rate > 0.0 && Monotone(es) && es != [] && Last(es).Call?
    ensures Arrivals(es, Last(es).key) != []
    ensures Decided(c, es, true) == Verdict(c, Arrivals(es, Last(es).key))
  {
    EvictionInvisible(c, es);
    TableIsBuckets(c, Init(es), Last(es).key);
    assert Init(Arrivals(es, Last(es).key)) == Arrivals(Init(es), Last(es).key);
  }

  lemma {:induction false} ArrivalsNonDecreasing(es: seq<Event>, key: string)
    requires Monotone(es)
    ensures NonDecreasing(Arrivals(es, key))
    ensures forall t :: t in Arrivals(es, key) ==> es != [] && t <= Last(es).at
  {
    if es != [] {
      ArrivalsNonDecreasing(Init(es), key);
      var earlier, all := Arrivals(Init(es), key), Arrivals(es, key);
      assert forall t | t in earlier :: t <= Last(es).at;
      assert forall i | 0 <= i < |earlier| :: earlier[i] in earlier && all[i] == earlier[i];
    }
  }

  /** Calls of `key` admitted by the evicting limiter at a time in [from, to]. */
  function AdmittedCalls(c: Config, es: seq<Event>, key: string, from: int, to: int): nat {
    if es == [] then 0
    else AdmittedCalls(c, Init(es), key, from, to)
         + if Last(es).Call? && Last(es).key == key && from <= Last(es).at <= to && Decided(c, es, true) == Admit
           then 1 else 0
  }

  lemma {:induction false} AdmittedCallsAreAdmissions(c: Config, es: seq<Event>, key: string, from: int, to: int)
    requires Configured(c) && c.rate > 0.0 && Monotone(es)
    ensures AdmittedCalls(c, es, key, from, to) == Admissions(c, Arrivals(es, key), from, to)
  {
    if es != [] {
      AdmittedCallsAreAdmissions(c, Init(es), key, from, to);
      if Last(es).Call? && Last(es).key == key {
        DecidedByOwnArrivals(c, es);
        assert Init(Arrivals(es, key)) == Arrivals(Init(es), key);
      } else {
        assert Arrivals(es, key) == Arrivals(Init(es), key);
      }
    }
  }

  /** The guarantee of the whole limiter: per client and window, at most the burst plus the accrual. */
  lemma ClientWindowBound(c: Config, es: seq<Event>, key: string, from: int, to: int)
    requires Configured(c) && c.rate > 0.0 && Monotone(es) && from <= to
    ensures AdmittedCalls(c, es, key, from, to) as real <= c.burst + Accrued(c, to - from)
  {
    AdmittedCallsAreAdmissions(c, es, key, from, to);
    ArrivalsNonDecreasing(es, key);
    WindowBound(c, Arrivals(es, key), from, to);
  }

  ghost predicate NeverRefused(c: Config, es: seq<Event>, key: string) {
    forall n :: 0 < n <= |es| && es[n - 1].Call? && es[n - 1].key == key ==> Decided(c, es[..n], true) == Admit
  }

  lemma NeverRefusedInit(c: Config, es: seq<Event>, key: string)
    requires es != []
    ensures NeverRefused(c, es, key) <==>
            && NeverRefused(c, Init(es), key)
            && (Last(es).Call? && Last(es).key == key ==> Decided(c, es, true) == Admit)
  {
    assert es[..|es|] == es;
    assert forall n | 0 < n < |es| :: Init(es)[..n] == es[..n];
  }

  lemma {:induction false} NeverRefusedIsAllAdmitted(c: Config, es: seq<Event>, key: string)
    requires Configured(c) && c.rate > 0.0 && Monotone(es)
    ensures NeverRefused(c, es, key) <==> AllAdmitted(c, Arrivals(es, key))
  {
    if es != [] {
      var ts := Arrivals(es, key);
      NeverRefusedIsAllAdmitted(c, Init(es), key);
      NeverRefusedInit(c, es, key);
      if Last(es).Call? && Last(es).key == key {
        DecidedByOwnArrivals(c, es);
        assert Init(ts) == Arrivals(Init(es), key);
        AllAdmittedInit(c, ts);
      } else {
        assert ts == Arrivals(Init(es), key);
      }
    }
  }

  /** A client is never refused exactly when its own arrivals conform to the burst and the rate. */
  lemma ClientExactAdmission(c: Config, es: seq<Event>, key: string)
    requires Configured(c) && c.rate > 0.0 && Monotone(es)
    ensures NeverRefused(c, es, key) <==> Conforms(c, Arrivals(es, key))
  {
    NeverRefusedIsAllAdmitted(c, es, key);
    ExactAdmission(c, Arrivals(es, key));
  }

  // ----- Erasing a rejected call, or another client's -----------------------------------------

  lemma {:induction false} ArrivalsAppend(first: seq<Event>, second: seq<Event>, key: string)
    ensures Arrivals(first + second, key) == Arrivals(first, key) + Arrivals(second, key)
  {
    if second == [] {
      assert first + second == first;
    } else {
      assert Init(first + second) == first + Init(second);
      ArrivalsAppend(first, Init(second), key);
    }
  }

  lemma ArrivalsOfOne(e: Event, key: string)
    ensures Arrivals([e], key) == if e.Call? && e.key == key then [e.at] else []
  {
    assert Init([e]) == [];
  }

  /** `e` is a call in the trace `before` + `e` + `after` that was rejected, or not of the last call's client. */
  ghost predicate Erasable(c: Config, before: seq<Event>, e: Event, after: seq<Event>) {
    && Monotone(before + [e] + after)
    && e.Call? && after != [] && Last(after).Call?
    && (e.key != Last(after).key || Decided(c, before + [e], true) != Admit)
  }

  /** Erasing such a call does not change the decision on the last call. */
  ghost predicate ErasingIsFree(c: Config, before: seq<Event>, e: Event, after: seq<Event>) {
    Erasable(c, before, e, after) ==>
      Decided(c, before + [e] + after, true) == Decided(c, before + after, true)
  }

  lemma MonotoneParts(before: seq<Event>, e: Event, after: seq<Event>)
    requires Monotone(before + [e] + after)
    ensures Monotone(before + [e]) && Monotone(before + after)
  {
    var all := before + [e] + after;
    assert forall i | 0 <= i < |before + [e]| :: (before + [e])[i] == all[i];
    forall i, j | 0 <= i <= j < |before + after| ensures (before + after)[i].at <= (before + after)[j].at {
      var k := if i < |before| then i else i + 1;
      var l := if j < |before| then j else j + 1;
      assert (before + after)[i] == all[k] && (before + after)[j] == all[l];
    }
  }

  lemma ErasureIsFree(c: Config, before: seq<Event>, e: Event, after: seq<Event>)
    requires Configured(c) && c.rate > 0.0 && Erasable(c, before, e, after)
    ensures Decided(c, before + [e] + after, true) == Decided(c, before + after, true)
  {
    var key := Last(after).key;
    var (earlier, later) := (Arrivals(before, key), Arrivals(after, key));
    MonotoneParts(before, e, after);
    assert Last(before + [e] + after) == Last(before + after) == Last(after);
    DecidedByOwnArrivals(c, before + [e] + after);
    DecidedByOwnArrivals(c, before + after);
    ArrivalsAppend(before + [e], after, key);
    ArrivalsAppend(before, [e], key);
    ArrivalsAppend(before, after, key);
    ArrivalsOfOne(e, key);
    assert later != [] && Arrivals(before + after, key) == earlier + later;
    if e.key == key {
      assert Last(before + [e]) == e;
      DecidedByOwnArrivals(c, before + [e]);
      assert Arrivals(before + [e] + after, key) == earlier + [e.at] + later;
      RejectionIsFree(c, earlier, e.at, later);
    } else {
      assert Arrivals(before + [e] + after, key) == earlier + later;
    }
  }

  /** A call of the spent client just when its idle window ends. */
  function LateCall(c: Config): Event {
    Call("a", c.ttl)
  }

  /** A sweep one nanosecond later, and another call. */
  function SweepThenCall(c: Config): seq<Event> {
    [Sweep(c.ttl + 1), Call("a", c.ttl + 1)]
  }

  /** The late call is rejected, but refreshes the bucket. */
  lemma LateCallRejected(c: Config) returns (kept: Bucket)
    requires Configured(c) && c.rate <= 0.0
    ensures var es := Volley(c.burst.Floor) + [LateCall(c)];
      && Decided(c, es, true) != Admit
      && TableAfter(c, es, true) == map["a" := kept]
    ensures kept.tokens < 1.0 && kept.lastSeen == c.ttl
  {
    var n := c.burst.Floor;
    var spent := Bucket(c.burst - n as real, 0);
    VolleySpends(c, n, true);
    StaysSpent(c, spent, c.ttl);
    assert Init(Volley(n) + [LateCall(c)]) == Volley(n);
    kept := Serve(c, Some(spent), c.ttl).0;
    assert map["a" := spent]["a" := kept] == map["a" := kept];
  }

  /** So it survives the sweep, and the last call is rejected too. */
  lemma LastCallRejected(c: Config)
    requires Configured(c) && c.rate <= 0.0
    ensures Decided(c, Volley(c.burst.Floor) + [LateCall(c)] + SweepThenCall(c), true) != Admit
  {
    var es := Volley(c.burst.Floor) + [LateCall(c)];
    var kept := LateCallRejected(c);
    var swept := es + [Sweep(c.ttl + 1)];
    assert Init(es + SweepThenCall(c)) == swept && Init(swept) == es;
    assert TableAfter(c, swept, true) == map["a" := kept];
    StaysSpent(c, kept, c.ttl + 1);
  }

  /** A rejected call can keep a client from being evicted; had it not been made, the last call would be admitted. */
  lemma RejectionPostponesEviction(c: Config)
    requires Configured(c) && c.rate <= 0.0
    ensures var before := Volley(c.burst.Floor);
      && Erasable(c, before, LateCall(c), SweepThenCall(c))
      && Decided(c, before + [LateCall(c)] + SweepThenCall(c), true) != Admit
      && Decided(c, before + SweepThenCall(c), true) == Admit
  {
    var before := Volley(c.burst.Floor);
    VolleyAtZero(c.burst.Floor);
    var kept := LateCallRejected(c);
    LastCallRejected(c);
    EvictionVisible(c);
    assert before + SweepThenCall(c) == IdleThenCall(c, c.burst.Floor);
  }

  /** Erasing a rejected call, or another client's, is free on every trace exactly for the limiters that refill. */
  lemma ErasureIsFreeExactly(c: Config)
    requires Configured(c)
    ensures c.rate > 0.0 <==> forall before, e, after :: ErasingIsFree(c, before, e, after)
  {
    if c.rate > 0.0 {
      forall before, e, after ensures ErasingIsFree(c, before, e, after) {
        if Erasable(c, before, e, after) { ErasureIsFree(c, before, e, after); }
      }
    } else {
      RejectionPostponesEviction(c);
      assert !ErasingIsFree(c, Volley(c.burst.Floor), LateCall(c), SweepThenCall(c));
    }
  }

  // ----- Following the advice -----------------------------------------------------------------

  /** Whatever the client called between `es` and the end of `meantime` was rejected. */
  ghost predicate RefusedSince(c: Config, es: seq<Event>, meantime: seq<Event>, key: string) {
    forall n :: 0 < n <= |meantime| && meantime[n - 1].Call? && meantime[n - 1].key == key ==>
      Decided(c, es + meantime[..n], true) != Admit
  }

  lemma RefusedSinceInit(c: Config, es: seq<Event>, meantime: seq<Event>, key: string)
    requires meantime != [] && RefusedSince(c, es, meantime, key)
    ensures RefusedSince(c, es, Init(meantime), key)
    ensures Last(meantime).Call? && Last(meantime).key == key ==> Decided(c, es + meantime, true) != Admit
  {
    assert meantime[..|meantime|] == meantime;
    assert forall n | 0 < n < |meantime| :: Init(meantime)[..n] == meantime[..n];
  }

  lemma {:induction false} RefusedArrivals(c: Config, es: seq<Event>, meantime: seq<Event>, key: string, n: nat)
    requires Configured(c) && c.rate > 0.0 && Monotone(es + meantime) && RefusedSince(c, es, meantime, key)
    requires 0 < n <= |Arrivals(meantime, key)|
    ensures Verdict(c, Arrivals(es, key) + Arrivals(meantime, key)[..n]) != Admit
    decreases |meantime|
  {
    var more := Arrivals(meantime, key);
    RefusedSinceInit(c, es, meantime, key);
    assert Init(es + meantime) == es + Init(meantime);
    if n <= |Arrivals(Init(meantime), key)| {
      assert more[..n] == Arrivals(Init(meantime), key)[..n];
      RefusedArrivals(c, es, Init(meantime), key, n);
    } else {
      assert Last(es + meantime) == Last(meantime) && more[..n] == more;
      DecidedByOwnArrivals(c, es + meantime);
      ArrivalsAppend(es, meantime, key);
    }
  }

  lemma LastArrival(es: seq<Event>)
    requires es != [] && Last(es).Call?
    ensures Arrivals(es, Last(es).key) != [] && Last(Arrivals(es, Last(es).key)) == Last(es).at
  {
  }

  /** A rejected client of the whole limiter gets in exactly when the missing fraction has accrued by then. */
  lemma ClientAdmittedAfterWait(c: Config, es: seq<Event>, meantime: seq<Event>, at: int)
    requires Configured(c) && c.rate > 0.0 && es != [] && Last(es).Call? && Decided(c, es, true) != Admit
    requires Monotone(es + meantime + [Call(Last(es).key, at)])
    requires RefusedSince(c, es, meantime, Last(es).key)
    ensures Arrivals(es, Last(es).key) != []
    ensures Decided(c, es + meantime + [Call(Last(es).key, at)], true) == Admit
       <==> (at - Last(es).at) as real >= TrueWait(c, Arrivals(es, Last(es).key))
  {
    var key := Last(es).key;
    var all := es + meantime + [Call(key, at)];
    var ts, more := Arrivals(es, key), Arrivals(meantime, key);
    LastArrival(es);
    MonotonePrefix(all, |es|);
    MonotonePrefix(all, |es + meantime|);
    assert all[..|es|] == es && all[..|es + meantime|] == es + meantime;
    DecidedByOwnArrivals(c, es);
    DecidedByOwnArrivals(c, all);
    ArrivalsAppend(es + meantime, [Call(key, at)], key);
    ArrivalsAppend(es, meantime, key);
    ArrivalsOfOne(Call(key, at), key);
    forall n | 0 < n <= |more| ensures Verdict(c, ts + more[..n]) != Admit {
      RefusedArrivals(c, es, meantime, key, n);
    }
    AdmittedAfterWait(c, ts, more, at);
  }

  lemma MonotonePrefix(es: seq<Event>, n: nat)
    requires Monotone(es) && n <= |es|
    ensures Monotone(es[..n])
  {
  }

  /** Whatever else happens, a client that waits out its advice and one second more gets in. */
  lemma ClientAdvicePlusASecond(c: Config, es: seq<Event>, meantime: seq<Event>, at: int)
    requires Configured(c) && c.rate > 0.0 && es != [] && Last(es).Call? && Decided(c, es, true).Reject?
    requires Monotone(es + meantime + [Call(Last(es).key, at)])
    requires RefusedSince(c, es, meantime, Last(es).key)
    requires at >= Last(es).at + Decided(c, es, true).retryAfter + SECOND
    ensures Decided(c, es + meantime + [Call(Last(es).key, at)], true) == Admit
  {
    ClientAdmittedAfterWait(c, es, meantime, at);
    AdviceOfClient(c, es, es + meantime + [Call(Last(es).key, at)]);
    AdviceWithinASecond(TrueWait(c, Arrivals(es, Last(es).key)));
  }

  /** The advice of the whole limiter is the rounded true wait of the client. */
  lemma AdviceOfClient(c: Config, es: seq<Event>, all: seq<Event>)
    requires Configured(c) && c.rate > 0.0 && es != [] && Last(es).Call? && Decided(c, es, true).Reject?
    requires Monotone(all) && es <= all
    ensures var ts := Arrivals(es, Last(es).key);
      ts != [] && TrueWait(c, ts) > 0.0 && Decided(c, es, true).retryAfter == AdviceFor(TrueWait(c, ts))
  {
    MonotonePrefix(all, |es|);
    assert all[..|es|] == es;
    DecidedByOwnArrivals(c, es);
    AdviceRoundsTrueWait(c, Arrivals(es, Last(es).key));
  }

  /** The advice of the whole limiter is within half a second of the true wait, or a second when that is shorter. */
  lemma ClientAdviceNearTrueWait(c: Config, es: seq<Event>)
    requires Configured(c) && c.rate > 0.0 && Monotone(es)
    requires es != [] && Last(es).Call? && Decided(c, es, true).Reject?
    ensures var (advice, ts) := (Decided(c, es, true).retryAfter, Arrivals(es, Last(es).key));
      && ts != []
      && advice % 1_000_000_000 == 0 && advice >= 1_000_000_000
      && (advice == 1_000_000_000 || advice as real <= TrueWait(c, ts) + 500_000_000.0)
      && advice as real < TrueWait(c, ts) + 1_000_000_000.0
      && TrueWait(c, ts) < advice as real + 500_000_001.0
  {
    DecidedByOwnArrivals(c, es);
    AdviceNearTrueWait(c, Arrivals(es, Last(es).key));
  }

  /** Without a positive rate every rejection, on any trace with any sweeps, advises a minute. */
  lemma ClientAdviceWithoutRate(c: Config, es: seq<Event>)
    requires c.rate <= 0.0 && es != [] && Last(es).Call? && Decided(c, es, true).Reject?
    ensures Decided(c, es, true).retryAfter == 60 * 1_000_000_000
  {
  }

  /** The rejected client's next call, if it follows its advice to the nanosecond. */
  function AdvisedCall(c: Config, es: seq<Event>): Event
    requires es != [] && Last(es).Call? && Decided(c, es, true).Reject?
  {
    Call(Last(es).key, Last(es).at + Decided(c, es, true).retryAfter)
  }

  /** Waiting out the advice alone is enough exactly for the true waits that rounding does not cut short. */
  lemma ClientAdviceAlone(c: Config, es: seq<Event>, meantime: seq<Event>)
    requires Configured(c) && c.rate > 0.0 && es != [] && Last(es).Call? && Decided(c, es, true).Reject?
    requires Monotone(es + meantime + [AdvisedCall(c, es)])
    requires RefusedSince(c, es, meantime, Last(es).key)
    ensures Arrivals(es, Last(es).key) != []
    ensures Decided(c, es + meantime + [AdvisedCall(c, es)], true) == Admit
       <==> AdviceCovers(TrueWait(c, Arrivals(es, Last(es).key)))
  {
    ClientAdmittedAfterWait(c, es, meantime, AdvisedCall(c, es).at);
    AdviceOfClient(c, es, es + meantime + [AdvisedCall(c, es)]);
    AdviceReaches(TrueWait(c, Arrivals(es, Last(es).key)));
  }

  // ----- The mutable limiter ----------------------------------------------------------------

  class Visitor {
    var tokens: real
    var lastSeen: int

    constructor (tokens: real, lastSeen: int)
      ensures this.tokens == tokens && this.lastSeen == lastSeen
    {
      this.tokens, this.lastSeen := tokens, lastSeen;
    }
  }

  class RateLimiter {
    var visitors: map<string, Visitor>
    const ratePerSec: real
    const burst: real
    const ttl: int

    /** No two keys share a visitor. */
    ghost predicate Valid()
      reads this
    {
      forall k, l :: k in visitors && l in visitors && k != l ==> visitors[k] != visitors[l]
    }

    function Settings(): Config {
      Config(ratePerSec, burst, ttl)
    }

    ghost function Buckets(): Table
      reads this, visitors.Values
    {
      map k | k in visitors :: Bucket(visitors[k].tokens, visitors[k].lastSeen)
    }

    constructor (ratePerSec: real, burst: real)
      ensures Valid() && Buckets() == map[]
      ensures Settings() == NewConfig(ratePerSec, burst) && Configured(Settings())
    {
      var capacity := burst;
      if burst < 1.0 { capacity := 1.0; }
      var window := 10 * MINUTE;
      if ratePerSec > 0.0 {
        var refill := Truncate(capacity / ratePerSec * SECOND as real);
        if refill > window { window := refill; }
      }
      this.visitors := map[];
      this.ratePerSec, this.burst, this.ttl := ratePerSec, capacity, window;
      NewConfigConfigured(ratePerSec, burst);
    }

    /** Deletes every client idle for longer than the window. */
    method Cleanup(now: int)
      requires Valid()
      modifies this`visitors
      ensures Valid() && Buckets() == Swept(Settings(), old(Buckets()), now)
      ensures forall k :: k in visitors <==> k in old(visitors) && now - old(visitors)[k].lastSeen <= ttl
      ensures forall k :: k in visitors ==> visitors[k] == old(visitors)[k]
    {
      var keys := visitors.Keys;
      while keys != {}
        invariant keys <= visitors.Keys <= old(visitors).Keys
        invariant forall k :: k in visitors ==> visitors[k] == old(visitors)[k]
        invariant forall k :: k in old(visitors) && k !in keys ==>
                    (k in visitors <==> !(now - old(visitors)[k].lastSeen > ttl))
        decreases keys
      {
        var k :| k in keys;
        keys := keys - {k};
        if now - visitors[k].lastSeen > ttl {
          visitors := visitors - {k};
        }
      }
    }

    /** Takes a token for `key`; when there is none, says how long to wait. */
    method Allow(key: string, now: int) returns (ok: bool, wait: int)
      requires Valid()
      modifies this`visitors, if key in visitors then {visitors[key]} else {}
      ensures Valid()
      ensures Buckets() == Allowed(Settings(), old(Buckets()), key, now).0
      ensures Allowed(Settings(), old(Buckets()), key, now).1 == if ok then Admit else Reject(wait)
      ensures ok ==> wait == 0
    {
      if key !in visitors {
        var v := new Visitor(burst - 1.0, now);
        visitors := visitors[key := v];
        return true, 0;
      }
      ok, wait := Take(visitors[key], now);
    }

    /** A call on one existing bucket. */
    method Take(v: Visitor, now: int) returns (ok: bool, wait: int)
      modifies v
      ensures (Bucket(v.tokens, v.lastSeen), if ok then Admit else Reject(wait))
           == Serve(Settings(), Some(old(Bucket(v.tokens, v.lastSeen))), now)
      ensures ok ==> wait == 0
    {
      Refill(v, now);
      if v.tokens < 1.0 {
        return false, RetryAfter(Settings(), v.tokens);
      }
      v.tokens := v.tokens - 1.0;
      return true, 0;
    }

    /** The lazy refill of one visitor, proportional to the time since it was last seen and capped. */
    method Refill(v: Visitor, now: int)
      modifies v
      ensures v.lastSeen == now
      ensures v.tokens == Level(Settings(), old(Bucket(v.tokens, v.lastSeen)), now)
    {
      var elapsed := (now - v.lastSeen) as real / SECOND as real;
      v.tokens := v.tokens + elapsed * ratePerSec;
      if v.tokens > burst {
        v.tokens := burst;
      }
      v.lastSeen := now;
    }
  }
}
