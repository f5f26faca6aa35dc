/** Probing node addresses: failure streaks, the probe window, and the bookkeeping of outstanding probes. */
module Keepalive {
  import opened Common

  type Addr = nat  // a socket address

  datatype AddrState = AddrState(failures: nat, available: bool)
  type Table = map<Addr, AddrState>

  const FRESH := AddrState(0, true)

  datatype Event = Register(addr: Addr) | Record(addr: Addr, ok: bool)

  /** The next 32-bit word, wrapping to 0. */
  function Succ32(n: nat): (m: nat)
    ensures m < TWO32
  {
    (n + 1) % TWO32
  }

  function StateOf(t: Table, addr: Addr): AddrState {
    if addr in t then t[addr] else FRESH
  }

  /** One event; the failure counter is a 32-bit word that wraps. */
  function Apply(t: Table, e: Event, threshold: nat): Table {
    match e
    case Register(addr) => if addr in t then t else t[addr := FRESH]
    case Record(addr, ok) =>
      if ok then t[addr := AddrState(0, true)]
      else
        var failures := Succ32(StateOf(t, addr).failures);
        t[addr := AddrState(failures, if failures >= threshold then false else StateOf(t, addr).available)]
  }

  function After(events: seq<Event>, threshold: nat): Table
    decreases |events|
  {
    if events == [] then map[] else Apply(After(events[..|events| - 1], threshold), events[|events| - 1], threshold)
  }

  lemma AfterSnoc(events: seq<Event>, e: Event, threshold: nat)
    ensures After(events + [e], threshold) == Apply(After(events, threshold), e, threshold)
  {
    assert (events + [e])[..|events|] == events;
  }

  /** The results recorded for an address, oldest first. */
  function Results(events: seq<Event>, addr: Addr): seq<bool>
    decreases |events|
  {
    if events == [] then []
    else
      var before := Results(events[..|events| - 1], addr);
      var e := events[|events| - 1];
      if e.Record? && e.addr == addr then before + [e.ok] else before
  }

  function Streak(results: seq<bool>): (n: nat)
    ensures n <= |results|
    ensures forall i :: |results| - n <= i < |results| ==> !results[i]
    ensures n < |results| ==> results[|results| - n - 1]
  {
    if results == [] || results[|results| - 1] then 0 else 1 + Streak(results[..|results| - 1])
  }

  function Max1(n: nat): nat {
    if n == 0 then 1 else n
  }

  lemma StreakSnoc(results: seq<bool>, ok: bool)
    ensures Streak(results + [ok]) == if ok then 0 else Streak(results) + 1
  {
    assert (results + [ok])[..|results|] == results;
  }

  /** Counter and flag follow the failure streak. */
  ghost predicate Follows(s: AddrState, streak: nat, threshold: nat) {
    s.failures == streak % TWO32 && (s.available <==> streak < Max1(threshold))
  }

  lemma FailureFollows(s: AddrState, streak: nat, threshold: nat)
    requires threshold < TWO32 && Follows(s, streak, threshold)
    ensures var failures := Succ32(s.failures);
            Follows(AddrState(failures, if failures >= threshold then false else s.available), streak + 1, threshold)
  {
    NextDivMod(streak, TWO32);
    NextDivMod(s.failures, TWO32);
    if streak + 1 < TWO32 {
      DivModUnique(TWO32, (streak + 1) / TWO32, (streak + 1) % TWO32, 0, streak + 1);
    }
  }

  lemma {:induction false} StateIsStreak(events: seq<Event>, threshold: nat, addr: Addr)
    requires threshold < TWO32
    ensures Follows(StateOf(After(events, threshold), addr), Streak(Results(events, addr)), threshold)
    decreases |events|
  {
    hide Streak;
    if events == [] {
      assert Streak([]) == 0;
    } else {
      var last := |events| - 1;
      StateIsStreak(events[..last], threshold, addr);
      var before, e := Results(events[..last], addr), events[last];
      if e.Record? && e.addr == addr {
        StreakSnoc(before, e.ok);
        FailureFollows(StateOf(After(events[..last], threshold), addr), Streak(before), threshold);
      }
    }
  }

  /**
   * An address is unavailable exactly when its last `threshold` results (at least one) are all failures, through any
   * trace of registrations and results and whatever the counter wraps to.
   */
  lemma UnavailableIff(events: seq<Event>, threshold: nat, addr: Addr)
    requires threshold < TWO32
    ensures var rs := Results(events, addr);
            !StateOf(After(events, threshold), addr).available
            <==> |rs| >= Max1(threshold) && forall i :: |rs| - Max1(threshold) <= i < |rs| ==> !rs[i]
  {
    StateIsStreak(events, threshold, addr);
    hide Streak;
    var rs := Results(events, addr);
    var n := Streak(rs);
    if n < Max1(threshold) && |rs| >= Max1(threshold) {
      assert rs[|rs| - n - 1];
    }
  }

  // ---------- the probe window ----------

  predicate Due(slot: nat, now: nat, interval: nat)
    requires interval > 0
  {
    slot % interval == now % interval
  }

  /** The second of the window in which an address is due. */
  function DueAt(slot: nat, from: nat, interval: nat): (t: nat)
    requires interval > 0
    ensures from <= t < from + interval
  {
    var wait := (slot % interval) - (from % interval);
    from + (if wait < 0 then wait + interval else wait)
  }

  /** In any `interval` consecutive seconds every address is due exactly once. */
  lemma DueOnce(slot: nat, from: nat, interval: nat, now: nat)
    requires interval > 0 && from <= now < from + interval
    ensures Due(slot, now, interval) <==> now == DueAt(slot, from, interval)
  {
    var r := from % interval;
    var d := now - from;
    ModShift(from, d, interval);
  }

  lemma ModShift(a: nat, d: nat, n: nat)
    requires 0 <= d < n
    ensures (a + d) % n == if a % n + d < n then a % n + d else a % n + d - n
  {
    var q, r := a / n, a % n;
    var q', r' := (a + d) / n, (a + d) % n;
    assert a == n * q + r && a + d == n * q' + r';
    if r + d < n {
      DivModUnique(n, q', r', q, r + d);
    } else {
      MulSplit(n, q, 1);
      DivModUnique(n, q', r', q + 1, r + d - n);
    }
  }

  // ---------- the objects ----------

  class Keepalive {
    var addrs: Table
    ghost var trace: seq<Event>

    ghost predicate Valid(threshold: nat)
      reads this
    {
      addrs == After(trace, threshold)
    }

    constructor ()
      ensures addrs == map[] && trace == []
    {
      addrs, trace := map[], [];
    }

    method RegisterAddr(addr: Addr, ghost threshold: nat)
      requires Valid(threshold)
      modifies this
      ensures Valid(threshold) && trace == old(trace) + [Register(addr)]
    {
      if addr !in addrs { addrs := addrs[addr := FRESH]; }
      hide After;
      AfterSnoc(trace, Register(addr), threshold);
      trace := trace + [Register(addr)];
    }

    method RecordResult(addr: Addr, ok: bool, threshold: nat)
      requires Valid(threshold)
      modifies this
      ensures Valid(threshold) && trace == old(trace) + [Record(addr, ok)]
    {
      hide Succ32;
      var state := if addr in addrs then addrs[addr] else FRESH;
      if ok {
        state := state.(failures := 0, available := true);
      } else {
        state := state.(failures := Succ32(state.failures));
        if state.failures >= threshold { state := state.(available := false); }
      }
      addrs := addrs[addr := state];
      hide After;
      AfterSnoc(trace, Record(addr, ok), threshold);
      trace := trace + [Record(addr, ok)];
    }

    /** The registered addresses whose slot is this second's. */
    method ProbeDue(slotOf: Addr -> nat, now: nat, interval: nat) returns (list: seq<Addr>)
      requires interval > 0
      ensures Distinct(list) && forall a :: a in list <==> a in addrs && Due(slotOf(a), now, interval)
    {
      list := [];
      var todo := addrs.Keys;
      while todo != {}
        invariant todo <= addrs.Keys && Distinct(list)
        invariant forall a :: a in list <==> a in addrs && a !in todo && Due(slotOf(a), now, interval)
        decreases todo
      {
        var a :| a in todo;
        todo := todo - {a};
        if slotOf(a) % interval == now % interval { list := list + [a]; }
      }
    }

    method Unavailable() returns (list: seq<Addr>)
      ensures Distinct(list) && forall a :: a in list <==> a in addrs && !addrs[a].available
    {
      list := [];
      var todo := addrs.Keys;
      while todo != {}
        invariant todo <= addrs.Keys && Distinct(list)
        invariant forall a :: a in list <==> a in addrs && a !in todo && !addrs[a].available
        decreases todo
      {
        var a :| a in todo;
        todo := todo - {a};
        if !addrs[a].available { list := list + [a]; }
      }
    }
  }
}
