/** The probe loop: numbered probes, their answers and time-outs, and the exact record of what became of each. */
module Probing {
  import opened Common
  import opened Keepalive

  /** Outstanding probes by number: address and send time. */
  type Probes = map<nat, (Addr, nat)>

  lemma InsertSize<K, V>(m: map<K, V>, k: K, v: V)
    ensures |m[k := v]| == |m| + if k in m then 0 else 1
  {
    assert m[k := v].Keys == m.Keys + {k};
    assert |m.Keys| == |m| && |m[k := v].Keys| == |m[k := v]|;
  }

  lemma RemoveSize<K, V>(m: map<K, V>, k: K)
    requires k in m
    ensures |m - {k}| == |m| - 1
  {
    assert (m - {k}).Keys == m.Keys - {k};
  }

  lemma SequenceStep(sent: nat)
    ensures Succ32(sent % TWO32) == (sent + 1) % TWO32
    ensures sent + 1 < TWO32 ==> Succ32(sent % TWO32) == sent + 1
    ensures sent + 1 == TWO32 ==> Succ32(sent % TWO32) == 0
  {
    NextDivMod(sent, TWO32);
    NextDivMod(sent % TWO32, TWO32);
  }

  // ---------- the record ----------

  /** A recorded result: the number of the probe and whether it was answered. */
  type Log = seq<(nat, bool)>

  /** Until the numbers wrap, no probe is recorded twice, or recorded while it is outstanding. */
  ghost predicate OnceEach(sent: nat, probes: Probes, log: Log) {
    sent < TWO32 ==>
      (forall i, j :: 0 <= i < j < |log| ==> log[i].0 != log[j].0) &&
      forall i :: 0 <= i < |log| ==> 1 <= log[i].0 <= sent && log[i].0 !in probes
  }

  /** Until the numbers wrap, probe `s` went to the `s`-th address a probe was sent to. */
  ghost predicate Numbered(sentTo: seq<Addr>, probes: Probes) {
    (forall s :: s in probes ==> s < TWO32) &&
    (|sentTo| < TWO32 ==> forall s :: s in probes ==> 1 <= s <= |sentTo| && probes[s].0 == sentTo[s - 1])
  }

  lemma NumberedSend(sentTo: seq<Addr>, probes: Probes, log: Log, addr: Addr, now: nat, number: nat)
    requires Numbered(sentTo, probes) && OnceEach(|sentTo|, probes, log) && number < TWO32
    requires |sentTo| + 1 < TWO32 ==> number == |sentTo| + 1
    requires |sentTo| + 1 == TWO32 ==> number == 0
    ensures Numbered(sentTo + [addr], probes[number := (addr, now)]) &&
      OnceEach(|sentTo| + 1, probes[number := (addr, now)], log)
    ensures |sentTo| < TWO32 ==> number !in probes
  {
  }

  lemma NumberedDrop(sentTo: seq<Addr>, probes: Probes, log: Log, s: nat, ok: bool)
    requires Numbered(sentTo, probes) && OnceEach(|sentTo|, probes, log) && s in probes
    ensures Numbered(sentTo, probes - {s}) && OnceEach(|sentTo|, probes - {s}, log + [(s, ok)])
  {
  }

  function Noted(numbers: seq<nat>, ok: bool): (log: Log)
    ensures |log| == |numbers| && forall i :: 0 <= i < |log| ==> log[i] == (numbers[i], ok)
  {
    seq(|numbers|, i requires 0 <= i < |numbers| => (numbers[i], ok))
  }

  lemma NotedSnoc(numbers: seq<nat>, ok: bool, s: nat)
    ensures Noted(numbers + [s], ok) == Noted(numbers, ok) + [(s, ok)]
  {
  }

  /** What a turn of the loop finds: the addresses to watch, the time, and the numbers answered. */
  datatype Turn = Turn(reported: set<Addr>, now: nat, pongs: seq<nat>)

  /** The probe loop: sequence counter, outstanding probes by sequence number, and ghost records. */
  class Prober {
    const keep: Keepalive
    var seqNo: nat
    var outstanding: Probes
    ghost var sentTo: seq<Addr>   // the address of every probe ever sent
    ghost var log: Log            // every result ever recorded
    ghost var overwritten: nat    // live probes whose number was taken again

    ghost predicate Valid(threshold: nat)
      reads this, keep
    {
      keep.Valid(threshold) && seqNo == |sentTo| % TWO32 &&
      |sentTo| == |log| + overwritten + |outstanding| &&
      (|sentTo| <= TWO32 ==> overwritten == 0) &&
      Numbered(sentTo, outstanding) && OnceEach(|sentTo|, outstanding, log)
    }

    constructor ()
      ensures seqNo == 0 && outstanding == map[] && sentTo == [] && log == [] && overwritten == 0
      ensures fresh(keep) && keep.addrs == map[] && keep.trace == []
    {
      keep := new Keepalive();
      seqNo, outstanding, sentTo, log, overwritten := 0, map[], [], [], 0;
    }

    /** A probe takes the next sequence number; a live probe of the same number is forgotten unrecorded. */
    method Send(addr: Addr, now: nat, ghost threshold: nat)
      requires Valid(threshold)
      modifies this
      ensures Valid(threshold) && sentTo == old(sentTo) + [addr] && log == old(log)
      ensures outstanding == old(outstanding)[Succ32(old(seqNo)) := (addr, now)]
      ensures overwritten == old(overwritten) + if Succ32(old(seqNo)) in old(outstanding) then 1 else 0
    {
      hide After;
      hide Numbered;
      hide OnceEach;
      SequenceStep(|sentTo|);
      hide Succ32;
      seqNo := Succ32(seqNo);
      NumberedSend(sentTo, outstanding, log, addr, now, seqNo);
      InsertSize(outstanding, seqNo, (addr, now));
      overwritten := overwritten + if seqNo in outstanding then 1 else 0;
      outstanding := outstanding[seqNo := (addr, now)];
      sentTo := sentTo + [addr];
    }

    /** A result for an outstanding probe. */
    method Settle(s: nat, ok: bool, threshold: nat)
      requires Valid(threshold) && s in outstanding
      modifies this, keep
      ensures Valid(threshold) && sentTo == old(sentTo) && overwritten == old(overwritten)
      ensures outstanding == old(outstanding) - {s} && log == old(log) + [(s, ok)]
      ensures keep.trace == old(keep.trace) + [Record(old(outstanding)[s].0, ok)]
    {
      hide After;
      hide Numbered;
      hide OnceEach;
      RemoveSize(outstanding, s);
      NumberedDrop(sentTo, outstanding, log, s, ok);
      var (addr, _) := outstanding[s];
      outstanding := outstanding - {s};
      log := log + [(s, ok)];
      keep.RecordResult(addr, ok, threshold);
    }

    /** An answer counts once, and only for an outstanding probe. */
    method Pong(seqReceived: nat, threshold: nat)
      requires Valid(threshold)
      modifies this, keep
      ensures Valid(threshold) && sentTo == old(sentTo) && overwritten == old(overwritten)
      ensures outstanding == old(outstanding) - {seqReceived}
      ensures log == old(log) + if seqReceived in old(outstanding) then [(seqReceived, true)] else []
      ensures keep.trace == old(keep.trace)
                            + if seqReceived in old(outstanding)
                              then [Record(old(outstanding)[seqReceived].0, true)] else []
    {
      hide *;
      if seqReceived in outstanding {
        Settle(seqReceived, true, threshold);
      } else {
        assert outstanding - {seqReceived} == outstanding;
      }
    }

    /** All answers of a turn: each outstanding probe that was answered is settled once, however often. */
    method Pongs(received: seq<nat>, threshold: nat) returns (ghost answered: seq<nat>)
      requires Valid(threshold)
      modifies this, keep
      ensures Valid(threshold) && sentTo == old(sentTo) && overwritten == old(overwritten)
      ensures Distinct(answered) && forall s :: s in answered <==> s in received && s in old(outstanding)
      ensures forall s :: s in outstanding <==> s in old(outstanding) && s !in received
      ensures forall s :: s in outstanding ==> outstanding[s] == old(outstanding)[s]
      ensures log == old(log) + Noted(answered, true)
    {
      hide After;
      hide Numbered;
      hide OnceEach;
      hide Valid;
      answered := [];
      for i := 0 to |received|
        invariant Valid(threshold) && sentTo == old(sentTo) && overwritten == old(overwritten)
        invariant Distinct(answered) && forall s :: s in answered <==> s in received[..i] && s in old(outstanding)
        invariant forall s :: s in outstanding <==> s in old(outstanding) && s !in received[..i]
        invariant forall s :: s in outstanding ==> outstanding[s] == old(outstanding)[s]
        invariant log == old(log) + Noted(answered, true)
      {
        assert received[..i + 1] == received[..i] + [received[i]];
        if received[i] in outstanding {
          NotedSnoc(answered, true, received[i]);
          answered := answered + [received[i]];
        }
        Pong(received[i], threshold);
      }
      assert received[..|received|] == received;
    }

    /** Probes older than the interval are recorded as failures, once each; only younger ones stay outstanding. */
    method Expire(now: nat, interval: nat, threshold: nat) returns (ghost order: seq<nat>)
      requires Valid(threshold)
      modifies this, keep
      ensures Valid(threshold) && sentTo == old(sentTo) && overwritten == old(overwritten)
      ensures forall s :: s in outstanding <==> s in old(outstanding) && now < old(outstanding)[s].1 + interval
      ensures forall s :: s in outstanding ==> outstanding[s] == old(outstanding)[s]
      ensures Distinct(order) && forall s :: s in order <==> s in old(outstanding) && s !in outstanding
      ensures log == old(log) + Noted(order, false)
      ensures keep.trace == old(keep.trace) + FailuresOf(old(outstanding), order)
    {
      hide *;
      ghost var before := outstanding;
      var todo := outstanding.Keys;
      order := [];
      SweepStart(before, now, interval);
      while todo != {}
        invariant Valid(threshold) && sentTo == old(sentTo) && overwritten == old(overwritten)
        invariant Swept(before, outstanding, todo, order, now, interval)
        invariant log == old(log) + Noted(order, false)
        invariant forall s :: s in order ==> s in before
        invariant keep.trace == old(keep.trace) + FailuresOf(before, order)
        decreases todo
      {
        var s :| s in todo;
        SweepStep(before, outstanding, todo, order, now, interval, s);
        todo := todo - {s};
        var (_, at) := outstanding[s];
        if now >= at + interval {
          FailuresSnoc(before, order, s);
          NotedSnoc(order, false, s);
          order := order + [s];
          Settle(s, false, threshold);
        }
      }
      SweepEnd(before, outstanding, order, now, interval);
    }

    /** Make sure the table knows an address. */
    method Know(addr: Addr, ghost threshold: nat)
      requires Valid(threshold)
      modifies keep
      ensures Valid(threshold) && keep.trace == old(keep.trace) + [Register(addr)]
    {
      hide After;
      hide Numbered;
      hide OnceEach;
      keep.RegisterAddr(addr, threshold);
    }

    /** Register the reported addresses and probe exactly those that are due, once each. */
    method SendDue(reported: set<Addr>, slotOf: Addr -> nat, now: nat, interval: nat, ghost threshold: nat)
      returns (ghost probed: seq<Addr>)
      requires Valid(threshold) && interval > 0
      modifies this, keep
      ensures Valid(threshold) && log == old(log) && sentTo == old(sentTo) + probed
      ensures Distinct(probed) && forall a :: a in probed <==> a in reported && Due(slotOf(a), now, interval)
      ensures |sentTo| < TWO32 ==> Launched(old(outstanding), outstanding, |old(sentTo)|, probed, now)
    {
      hide *;
      var todo := reported;
      probed := [];
      LaunchNothing(outstanding, |sentTo|, now);
      while todo != {}
        invariant Valid(threshold) && log == old(log) && todo <= reported && sentTo == old(sentTo) + probed
        invariant Distinct(probed)
        invariant forall a :: a in probed <==> a in reported && a !in todo && Due(slotOf(a), now, interval)
        invariant |sentTo| < TWO32 ==> Launched(old(outstanding), outstanding, |old(sentTo)|, probed, now)
        decreases todo
      {
        var a :| a in todo;
        todo := todo - {a};
        Know(a, threshold);
        if Due(slotOf(a), now, interval) {
          SequenceAt(threshold);
          LaunchOne(old(outstanding), outstanding, |old(sentTo)|, probed, a, now);
          Send(a, now, threshold);
          DistinctSnoc(probed, a);
          probed := probed + [a];
        }
      }
    }

    lemma SequenceAt(threshold: nat)
      requires Valid(threshold)
      ensures |sentTo| + 1 < TWO32 ==> Succ32(seqNo) == |sentTo| + 1
    {
      hide After;
      SequenceStep(|sentTo|);
    }

    /**
     * One turn of the service loop: register, probe, collect answers, expire. Exactly the due addresses are probed,
     * exactly the answered probes are recorded as answered, exactly the unanswered ones as old as the interval as
     * failures, and the others stay.
     */
    method Tick(reported: set<Addr>, slotOf: Addr -> nat, now: nat, interval: nat, pongs: seq<nat>, threshold: nat)
      returns (ghost probed: seq<Addr>, ghost flying: Probes, ghost answered: seq<nat>, ghost late: seq<nat>)
      requires Valid(threshold) && interval > 0
      modifies this, keep
      ensures Valid(threshold) && sentTo == old(sentTo) + probed &&
        log == old(log) + Noted(answered, true) + Noted(late, false)
      ensures Distinct(probed) && forall a :: a in probed <==> a in reported && Due(slotOf(a), now, interval)
      ensures |sentTo| < TWO32 ==> Launched(old(outstanding), flying, |old(sentTo)|, probed, now)
      ensures Distinct(answered) && forall s :: s in answered <==> s in pongs && s in flying
      ensures Distinct(late) && forall s :: s in late <==> s in flying && s !in pongs && now >= flying[s].1 + interval
      ensures forall s :: s in outstanding <==> s in flying && s !in pongs && now < flying[s].1 + interval
      ensures forall s :: s in outstanding ==> outstanding[s] == flying[s]
    {
      hide *;
      probed := SendDue(reported, slotOf, now, interval, threshold);
      flying := outstanding;
      answered := Pongs(pongs, threshold);
      late := Expire(now, interval, threshold);
    }

    /**
     * Any number of turns: every probe ever sent was recorded, is outstanding, or lost its number to a later one, and
     * until the numbers wrap none is lost and none is recorded twice.
     */
    method Run(turns: seq<Turn>, slotOf: Addr -> nat, interval: nat, threshold: nat)
      requires Valid(threshold) && interval > 0
      modifies this, keep
      ensures Valid(threshold) && |old(sentTo)| <= |sentTo|
      ensures |sentTo| == |log| + overwritten + |outstanding|
      ensures |sentTo| < TWO32 ==> overwritten == 0
      ensures |sentTo| < TWO32 ==> forall i, j :: 0 <= i < j < |log| ==> log[i].0 != log[j].0
      ensures |sentTo| < TWO32 ==> forall i :: 0 <= i < |log| ==> 1 <= log[i].0 <= |sentTo| && log[i].0 !in outstanding
    {
      hide After;
      for k := 0 to |turns|
        invariant Valid(threshold) && |old(sentTo)| <= |sentTo|
      {
        var _, _, _, _ := Tick(turns[k].reported, slotOf, turns[k].now, interval, turns[k].pongs, threshold);
      }
    }
  }

  // ---------- what a round of sends adds ----------

  /** `after` is `before` and the probes of this round under the numbers that follow `sent`. */
  ghost predicate Launched(before: Probes, after: Probes, sent: nat, probed: seq<Addr>, now: nat) {
    (forall s :: s in after <==> s in before || sent < s <= sent + |probed|) &&
    forall s :: s in after ==>
      after[s] == if sent < s <= sent + |probed| then (probed[s - sent - 1], now) else before[s]
  }

  lemma LaunchNothing(probes: Probes, sent: nat, now: nat)
    ensures Launched(probes, probes, sent, [], now) && Distinct<Addr>([])
  {
  }

  lemma LaunchOne(before: Probes, after: Probes, sent: nat, probed: seq<Addr>, a: Addr, now: nat)
    ensures Launched(before, after, sent, probed, now)
       ==> Launched(before, after[sent + |probed| + 1 := (a, now)], sent, probed + [a], now)
  {
  }

  lemma DistinctSnoc(s: seq<Addr>, a: Addr)
    requires Distinct(s) && a !in s
    ensures Distinct(s + [a])
  {
  }

  // ---------- the sweep ----------

  /** One failed result for the address of every listed probe. */
  ghost function FailuresOf(probes: Probes, order: seq<nat>): (es: seq<Event>)
    requires forall s :: s in order ==> s in probes
    ensures |es| == |order| && forall i :: 0 <= i < |order| ==> es[i] == Record(probes[order[i]].0, false)
  {
    seq(|order|, i requires 0 <= i < |order| => Record(probes[order[i]].0, false))
  }

  lemma FailuresSnoc(probes: Probes, order: seq<nat>, s: nat)
    requires s in probes && forall t :: t in order ==> t in probes
    ensures forall t :: t in order + [s] ==> t in probes
    ensures FailuresOf(probes, order + [s]) == FailuresOf(probes, order) + [Record(probes[s].0, false)]
  {
  }

  /** Half way through the sweep: `rest` is left of `before`, `todo` not looked at yet, `order` dropped. */
  ghost predicate Swept(before: Probes, rest: Probes, todo: set<nat>, order: seq<nat>, now: nat, interval: nat) {
    todo <= rest.Keys && (forall s :: s in rest ==> s in before && rest[s] == before[s]) &&
    (forall s :: s in before && s !in todo ==> (s in rest <==> now < before[s].1 + interval)) &&
    Distinct(order) && forall s :: s in order <==> s in before && s !in rest
  }

  lemma SweepStart(before: Probes, now: nat, interval: nat)
    ensures Swept(before, before, before.Keys, [], now, interval)
    ensures FailuresOf(before, []) == [] && Noted([], false) == []
  {
  }

  lemma SweepStep(before: Probes, rest: Probes, todo: set<nat>, order: seq<nat>, now: nat, interval: nat, s: nat)
    requires Swept(before, rest, todo, order, now, interval) && s in todo
    ensures s in rest && s in before && rest[s] == before[s]
    ensures now < rest[s].1 + interval ==> Swept(before, rest, todo - {s}, order, now, interval)
    ensures now >= rest[s].1 + interval ==> Swept(before, rest - {s}, todo - {s}, order + [s], now, interval)
  {
  }

  lemma SweepEnd(before: Probes, rest: Probes, order: seq<nat>, now: nat, interval: nat)
    requires Swept(before, rest, {}, order, now, interval)
    ensures forall s :: s in rest <==> s in before && now < before[s].1 + interval
    ensures forall s :: s in rest ==> rest[s] == before[s]
    ensures Distinct(order) && forall s :: s in order <==> s in before && s !in rest
  {
  }
}
