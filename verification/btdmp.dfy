// The audio transmitter: a 16-entry queue drained two samples per period.
module Btdmps {
  import opened Words
  import opened Arith
  import opened Timers

  const CAPACITY := 16

  type s16 = x: int | -0x8000 <= x < 0x8000

  function Signed16(x: u16): s16 {
    if x < 0x8000 then x else x - 0x1_0000
  }

  // `samples` is every pair handed to the audio callback, oldest first, and
  // `irqs` counts the calls of the interrupt handler.
  datatype BtdmpState = BtdmpState(
    period: u16,
    timer: u16,
    enable: bool,
    empty: bool,
    full: bool,
    queue: seq<u16>,
    samples: seq<(s16, s16)>,
    irqs: nat
  ) {
    // The two status flags describe the queue.
    predicate Valid() {
      && |queue| <= CAPACITY
      && empty == (queue == [])
      && full == (|queue| == CAPACITY)
    }

    // Skip divides by the period, and adds in 64 bits.
    predicate Skippable(n: nat) {
      (enable ==> period > 0) && timer + n <= INFINITY
    }
  }

  function Sent(r: BtdmpState, value: u16): BtdmpState {
    if |r.queue| == CAPACITY then r
    else r.(queue := r.queue + [value], empty := false, full := |r.queue| + 1 == CAPACITY)
  }

  function Flushed(r: BtdmpState): BtdmpState {
    r.(queue := [], empty := true, full := false)
  }

  function Front(r: BtdmpState): s16 {
    if r.queue == [] then 0 else Signed16(r.queue[0])
  }

  // One sample leaves the queue; emptying it raises the interrupt.
  function Popped(r: BtdmpState): BtdmpState {
    if r.queue == [] then r
    else
      var rest := r.queue[1..];
      r.(queue := rest, empty := rest == [], full := false, irqs := if rest == [] then r.irqs + 1 else r.irqs)
  }

  function Transmit(r: BtdmpState): BtdmpState {
    Popped(Popped(r)).(samples := r.samples + [(Front(r), Front(Popped(r)))])
  }

  function OneTick(r: BtdmpState): BtdmpState {
    if !r.enable then r
    else
      var t := (r.timer + 1) % 0x1_0000;
      if t >= r.period then Transmit(r.(timer := 0)) else r.(timer := t)
  }

  // The reference for skipping: n single ticks, one after the other.
  function Ticks(r: BtdmpState, n: nat): BtdmpState {
    if n == 0 then r else OneTick(Ticks(r, n - 1))
  }

  function Transmits(r: BtdmpState, n: nat): BtdmpState {
    if n == 0 then r else Transmit(Transmits(r, n - 1))
  }

  function MaxSkip(r: BtdmpState): nat {
    if !r.enable || r.queue == [] then INFINITY
    else
      var pairs := (|r.queue| + 1) / 2;
      (if r.timer < r.period then r.period - r.timer - 1 else 0) + Times(pairs - 1, r.period)
  }

  // One transmit as Skip performs it: no flag or interrupt for an emptied queue.
  function Drain(r: BtdmpState): BtdmpState
    requires r.queue == [] || |r.queue| > 2
  {
    if r.queue == [] then r.(samples := r.samples + [(0, 0)])
    else r.(queue := r.queue[2..], full := false,
            samples := r.samples + [(Signed16(r.queue[0]), Signed16(r.queue[1]))])
  }

  function Drains(r: BtdmpState, n: nat): (d: BtdmpState)
    requires r.queue == [] || |r.queue| > 2 * n
    ensures if r.queue == [] then d.queue == [] else d.queue == r.queue[2 * n..]
  {
    if n == 0 then r else Drain(Drains(r, n - 1))
  }

  function SkipBase(r: BtdmpState): u16 {
    if r.timer >= r.period then 0 else r.timer
  }

  // The jump: all the transmits that fall inside it, then the timer.
  function Jump(r: BtdmpState, n: nat): BtdmpState
    requires r.Skippable(n) && n <= MaxSkip(r)
  {
    if !r.enable then r
    else
      var future := SkipBase(r) + n;
      FewTransmits(r, n);
      Drains(r, Quot(future, r.period)).(timer := Rem(future, r.period))
  }

  lemma {:induction false} DrainsAnyTimer(r: BtdmpState, n: nat, t: u16)
    requires r.queue == [] || |r.queue| > 2 * n
    ensures Drains(r.(timer := t), n) == Drains(r, n).(timer := t)
  {
    if n > 0 {
      DrainsAnyTimer(r, n - 1, t);
    }
  }

  // Within the bound every transmit leaves something in a non-empty queue.
  lemma FewTransmits(r: BtdmpState, n: nat)
    requires r.enable && r.period > 0 && n <= MaxSkip(r)
    ensures r.queue == [] || |r.queue| > 2 * (Quot(SkipBase(r) + n, r.period))
  {
    if r.queue != [] {
      var pairs := (|r.queue| + 1) / 2;
      QuotBelow(SkipBase(r) + n, pairs, r.period);
    }
  }

  lemma TransmitShape(r: BtdmpState)
    ensures var e := Transmit(r);
            && e.period == r.period && e.timer == r.timer && e.enable == r.enable && |e.samples| == |r.samples| + 1
            && e.queue == (if |r.queue| >= 2 then r.queue[2..] else [])
            && e.irqs == if 1 <= |r.queue| <= 2 then r.irqs + 1 else r.irqs
  {
  }

  lemma {:induction false} TransmitsShape(r: BtdmpState, n: nat)
    ensures var e := Transmits(r, n);
            && e.period == r.period && e.timer == r.timer && e.enable == r.enable
            && |e.samples| == |r.samples| + n
            && e.queue == (if 2 * n <= |r.queue| then r.queue[2 * n..] else [])
            && e.irqs == if r.queue != [] && |r.queue| <= 2 * n then r.irqs + 1 else r.irqs
  {
    hide Transmit;
    if n > 0 {
      TransmitsShape(r, n - 1);
      TransmitShape(Transmits(r, n - 1));
    }
  }

  lemma TickFrom(r: BtdmpState, t: u16)
    requires r.enable && t < r.period
    ensures OneTick(r.(timer := t)) ==
            if t + 1 < r.period then r.(timer := t + 1) else Transmit(r).(timer := 0)
  {
  }

  // The state n cycles after the timer stood at t, in closed form.
  function After(r: BtdmpState, t: u16, n: nat): BtdmpState
    requires t < r.period
  {
    TransmitsShape(r, Quot(t + n, r.period));
    Transmits(r, Quot(t + n, r.period)).(timer := Rem(t + n, r.period))
  }

  lemma AfterStep(r: BtdmpState, t: u16, n: nat)
    requires r.enable && t < r.period
    ensures OneTick(After(r, t, n)) == After(r, t, n + 1)
  {
    hide OneTick, Transmit;
    QuotRemStep(t + n, r.period);
    TransmitsShape(r, Quot(t + n, r.period));
    TickFrom(Transmits(r, Quot(t + n, r.period)), Rem(t + n, r.period));
  }

  // What any number of ticks amounts to while the timer is inside its period.
  lemma {:induction false} TicksClosedForm(r: BtdmpState, n: nat)
    requires r.enable && r.timer < r.period
    ensures Ticks(r, n) == After(r, r.timer, n)
  {
    if n > 0 {
      TicksClosedForm(r, n - 1);
      AfterStep(r, r.timer, n - 1);
    }
  }

  lemma DrainIsTransmit(r: BtdmpState)
    requires r.empty == (r.queue == []) && (r.queue == [] || |r.queue| > 2)
    ensures Drain(r) == Transmit(r) && Drain(r).empty == (Drain(r).queue == [])
  {
  }

  lemma {:induction false} DrainsAreTransmits(r: BtdmpState, n: nat)
    requires r.empty == (r.queue == [])
    requires r.queue == [] || |r.queue| > 2 * n
    ensures Drains(r, n) == Transmits(r, n) && Drains(r, n).empty == (Drains(r, n).queue == [])
  {
    hide Drain, Transmit;
    if n > 0 {
      DrainsAreTransmits(r, n - 1);
      DrainIsTransmit(Drains(r, n - 1));
    }
  }

  // The timer is inside its period. A period of one is also in step from any
  // other timer value, unless the increment wraps to zero.
  predicate InStep(r: BtdmpState) {
    r.timer < r.period || (r.period == 1 && r.timer != 0xFFFF)
  }

  // Outside its period the first tick only brings the timer back to zero,
  // with a transmit unless the increment wrapped.
  function Entered(r: BtdmpState): BtdmpState {
    if r.timer == 0xFFFF then r else Transmit(r)
  }

  lemma {:induction false} OutOfPeriodTicks(r: BtdmpState, n: nat)
    requires r.enable && 0 < r.period <= r.timer
    ensures Ticks(r, n + 1) == After(Entered(r), 0, n)
  {
    hide OneTick, Transmit, After, Entered;
    if n == 0 {
      EnteringTick(r);
    } else {
      OutOfPeriodTicks(r, n - 1);
      EnteredShape(r);
      AfterStep(Entered(r), 0, n - 1);
    }
  }

  lemma EnteringTick(r: BtdmpState)
    requires r.enable && 0 < r.period <= r.timer
    ensures OneTick(r) == After(Entered(r), 0, 0)
  {
    assert OneTick(r) == if r.timer == 0xFFFF then r.(timer := 0) else Transmit(r.(timer := 0));
    assert Transmit(r.(timer := 0)) == Transmit(r).(timer := 0);
  }

  lemma EnteredShape(r: BtdmpState)
    ensures Entered(r).period == r.period && Entered(r).enable == r.enable
    ensures |Entered(r).samples| == |r.samples| + if r.timer == 0xFFFF then 0 else 1
  {
  }

  lemma SkipClosedForm(r: BtdmpState, n: nat)
    requires r.enable && r.Valid() && r.Skippable(n) && n <= MaxSkip(r)
    ensures Jump(r, n) == After(r, SkipBase(r), n)
    ensures Jump(r, n).irqs == r.irqs
  {
    hide OneTick, Transmit;
    FewTransmits(r, n);
    DrainsAreTransmits(r, Quot(SkipBase(r) + n, r.period));
    TransmitsShape(r, Quot(SkipBase(r) + n, r.period));
  }

  lemma DisabledTicks(r: BtdmpState, n: nat)
    requires !r.enable
    ensures Ticks(r, n) == r
  {
  }

  // A jump of n >= 1 cycles is n ticks exactly when the timer is in step.
  lemma SkipIsTicksExactly(r: BtdmpState, n: nat)
    requires r.Valid() && r.Skippable(n) && 1 <= n <= MaxSkip(r)
    ensures Jump(r, n) == Ticks(r, n) <==> !r.enable || InStep(r)
  {
    hide *;
    SkipFacts(r, n);
    if !r.enable {
      DisabledTicks(r, n);
    } else {
      SkipClosedForm(r, n);
      if r.timer < r.period {
        TicksClosedForm(r, n);
      } else {
        OutOfPeriodTicks(r, n - 1);
        CompareOutOfPeriod(r, n);
      }
    }
  }

  lemma SkipFacts(r: BtdmpState, n: nat)
    requires r.Skippable(n) && n <= MaxSkip(r)
    ensures r.enable ==> r.period > 0
    ensures r.timer < r.period ==> InStep(r)
    ensures SkipBase(r) == if r.timer >= r.period then 0 else r.timer
    ensures !r.enable ==> Jump(r, n) == r
  {
  }

  lemma CompareOutOfPeriod(r: BtdmpState, n: nat)
    requires 0 < r.period <= r.timer && n > 0
    ensures Entered(r).period == r.period
    ensures After(r, 0, n) == After(Entered(r), 0, n - 1) <==> InStep(r)
  {
    hide OneTick, Transmit, Entered, Transmits, Quot, Rem;
    EnteredShape(r);
    TransmitsShape(r, Quot(n, r.period));
    TransmitsShape(Entered(r), Quot(n - 1, r.period));
    if r.period == 1 {
      OneIsUnit(n);
      OneIsUnit(n - 1);
      if r.timer != 0xFFFF {
        EnteredThenTransmits(r, n - 1);
      }
    } else {
      QuotRemStep(n - 1, r.period);
    }
  }

  lemma EnteredThenTransmits(r: BtdmpState, n: nat)
    requires r.timer != 0xFFFF
    ensures Transmits(Entered(r), n) == Transmits(r, n + 1)
  {
  }

  lemma {:induction false} OneIsUnit(n: nat)
    ensures Quot(n, 1) == n && Rem(n, 1) == 0
  {
    if n > 0 {
      OneIsUnit(n - 1);
    }
  }

  lemma {:induction false} TicksOfAfter(r: BtdmpState, t: u16, n: nat, j: nat)
    requires r.enable && t < r.period
    ensures Ticks(After(r, t, n), j) == After(r, t, n + j)
  {
    hide OneTick, After;
    if j > 0 {
      TicksOfAfter(r, t, n, j - 1);
      AfterStep(r, t, n + j - 1);
    }
  }

  // The same for a jump of n >= 0 cycles followed by one or more ticks.
  lemma SkipThenTicksExactly(r: BtdmpState, n: nat, j: nat)
    requires r.Valid() && r.Skippable(n) && n <= MaxSkip(r) && j > 0
    ensures Ticks(Jump(r, n), j) == Ticks(r, n + j) <==> !r.enable || InStep(r)
  {
    hide *;
    SkipFacts(r, n);
    if !r.enable {
      DisabledTicks(r, n + j);
      DisabledTicks(r, j);
    } else {
      SkipClosedForm(r, n);
      TicksOfAfter(r, SkipBase(r), n, j);
      if r.timer < r.period {
        TicksClosedForm(r, n + j);
      } else {
        OutOfPeriodTicks(r, n + j - 1);
        CompareOutOfPeriod(r, n + j);
      }
    }
  }

  lemma {:induction false} EmptyIsSilent(r: BtdmpState, n: nat)
    requires r.queue == []
    ensures Ticks(r, n).queue == [] && Ticks(r, n).irqs == r.irqs
  {
    if n > 0 {
      EmptyIsSilent(r, n - 1);
    }
  }

  // How often n ticks transmit, wherever the timer stands.
  function Crossings(r: BtdmpState, n: nat): nat
    requires r.period > 0
  {
    if r.timer < r.period then Quot(r.timer + n, r.period)
    else if n == 0 then 0
    else (if r.timer == 0xFFFF then 0 else 1) + Quot(n - 1, r.period)
  }

  lemma TicksCross(r: BtdmpState, n: nat)
    requires r.enable && r.period > 0
    ensures Ticks(r, n).queue == Transmits(r, Crossings(r, n)).queue
    ensures Ticks(r, n).irqs == Transmits(r, Crossings(r, n)).irqs
  {
    hide OneTick, Transmit, Quot, Rem;
    if r.timer < r.period {
      TicksClosedForm(r, n);
    } else if n > 0 {
      OutOfPeriodTicks(r, n - 1);
      EnteredShape(r);
      if r.timer == 0xFFFF {
        assert Entered(r) == r;
      } else {
        EnteredThenTransmits(r, Quot(n - 1, r.period));
      }
    }
  }

  // Within the bound something is left in a non-empty queue; one tick later it
  // has run empty unless the timer stood at 0xFFFF.
  lemma CrossingsInBound(r: BtdmpState, n: nat)
    requires r.enable && r.period > 0 && r.queue != [] && n <= MaxSkip(r)
    ensures 2 * Crossings(r, n) < |r.queue|
    ensures var next := Crossings(r, MaxSkip(r) + 1);
            if r.timer == 0xFFFF then 2 * next < |r.queue| else |r.queue| <= 2 * next
  {
    var pairs := (|r.queue| + 1) / 2;
    if r.timer < r.period {
      QuotBelow(r.timer + n, pairs, r.period);
      assert r.timer + MaxSkip(r) + 1 == Times(pairs, r.period);
      QuotRemOfTimes(pairs, r.period);
    } else {
      assert MaxSkip(r) == Times(pairs - 1, r.period);
      QuotRemOfTimes(pairs - 1, r.period);
      if n > 0 {
        QuotBelow(n - 1, pairs - 1, r.period);
      }
    }
  }

  // No interrupt inside the bound.
  lemma BoundIsSilent(r: BtdmpState, n: nat)
    requires n <= MaxSkip(r)
    ensures Ticks(r, n).irqs == r.irqs
  {
    hide OneTick, Transmit, Crossings;
    if !r.enable {
      DisabledTicks(r, n);
    } else if r.queue == [] {
      EmptyIsSilent(r, n);
    } else if r.period > 0 {
      TicksCross(r, n);
      CrossingsInBound(r, n);
      TransmitsShape(r, Crossings(r, n));
    } else {
      ZeroPeriod(r);
    }
  }

  lemma ZeroPeriod(r: BtdmpState)
    requires r.enable && r.period == 0 && r.queue != []
    ensures MaxSkip(r) == 0
    ensures Ticks(r, 0) == r && Ticks(r, 1) == Transmit(r).(timer := 0)
  {
    hide Transmit;
    TimesIsProduct((|r.queue| + 1) / 2 - 1, 0);
    TransmitAnyTimer(r);
    assert Ticks(r, 1) == OneTick(Ticks(r, 0));
  }

  lemma TransmitAnyTimer(r: BtdmpState)
    ensures Transmit(r.(timer := 0)) == Transmit(r).(timer := 0)
  {
  }

  predicate EmptiesNext(r: BtdmpState) {
    if r.period == 0 then |r.queue| <= 2 else r.timer != 0xFFFF
  }

  // The tick after a finite bound empties the queue and fires exactly once, if
  // and only if the increment of the timer does not wrap; a period of zero
  // transmits at every tick.
  lemma BoundIsTightExactly(r: BtdmpState)
    requires r.enable && r.queue != []
    ensures Ticks(r, MaxSkip(r) + 1).queue == [] <==> EmptiesNext(r)
    ensures Ticks(r, MaxSkip(r) + 1).irqs == if EmptiesNext(r) then r.irqs + 1 else r.irqs
  {
    hide OneTick, Transmit, Crossings, MaxSkip, Transmits;
    if r.period > 0 {
      TicksCross(r, MaxSkip(r) + 1);
      CrossingsInBound(r, 0);
      TransmitsShape(r, Crossings(r, MaxSkip(r) + 1));
    } else {
      ZeroPeriod(r);
      TransmitShape(r);
    }
  }

  // A finite bound counts down with the ticks.
  lemma BoundRunsOut(r: BtdmpState)
    requires r.Valid() && r.Skippable(MaxSkip(r)) && (!r.enable || InStep(r)) && MaxSkip(r) < INFINITY
    ensures MaxSkip(Ticks(r, MaxSkip(r))) == 0
  {
    hide OneTick, Transmit, Jump, Transmits;
    var n, pairs := MaxSkip(r), (|r.queue| + 1) / 2;
    if n == 0 {
      assert Ticks(r, 0) == r;
    } else {
      SkipIsTicksExactly(r, n);
      SkipClosedForm(r, n);
      QuotRemOf(pairs - 1, r.period, r.period - 1);
      TransmitsShape(r, pairs - 1);
      LastPairDue(r, Ticks(r, n));
    }
  }

  lemma LastPairDue(r: BtdmpState, e: BtdmpState)
    requires r.queue != [] && e.queue == r.queue[2 * ((|r.queue| + 1) / 2 - 1)..]
    requires e.enable && e.timer + 1 == e.period
    ensures MaxSkip(e) == 0
  {
  }

  // Ticking keeps an enabled transmitter in step.
  lemma {:induction false} TicksStayInPeriod(r: BtdmpState, n: nat)
    requires r.timer < r.period
    ensures Ticks(r, n).timer < Ticks(r, n).period == r.period
  {
    if n > 0 {
      TicksStayInPeriod(r, n - 1);
    }
  }

  lemma TransmitTakesTwo(r: BtdmpState)
    requires |r.queue| >= 2
    ensures Transmit(r).samples == r.samples + [(Signed16(r.queue[0]), Signed16(r.queue[1]))]
  {
  }

  // The k-th pair emitted by n transmits is the k-th pair of the queue.
  lemma {:induction false} SamplesAreTheQueue(r: BtdmpState, n: nat, k: nat)
    requires k < n && 2 * n <= |r.queue|
    ensures |Transmits(r, n).samples| == |r.samples| + n
    ensures Transmits(r, n).samples[|r.samples| + k] == (Signed16(r.queue[2 * k]), Signed16(r.queue[2 * k + 1]))
  {
    hide Transmit, Popped, Signed16;
    TransmitsShape(r, n);
    TransmitsShape(r, n - 1);
    TransmitTakesTwo(Transmits(r, n - 1));
    if k < n - 1 {
      SamplesAreTheQueue(r, n - 1, k);
    }
  }

  // Flushing empties the queue and nothing else.
  lemma FlushedIsEmpty(r: BtdmpState)
    ensures var e := Flushed(r);
            e.queue == [] && e.empty && !e.full && e == r.(queue := e.queue, empty := e.empty, full := e.full)
  {
  }

  function SentAll(r: BtdmpState, values: seq<u16>): BtdmpState {
    if values == [] then r else Sent(SentAll(r, values[..|values| - 1]), values[|values| - 1])
  }

  // An empty queue takes the first sixteen values in the order they are sent
  // and no more; the flags say when it holds any and when it holds sixteen.
  lemma {:induction false} SentInOrder(r: BtdmpState, values: seq<u16>)
    requires r.queue == [] && r.empty && !r.full
    ensures var e := SentAll(r, values);
            && e.queue == (if |values| <= 16 then values else values[..16])
            && (e.empty <==> values == []) && (e.full <==> |values| >= 16)
            && e == r.(queue := e.queue, empty := e.empty, full := e.full)
  {
    if values != [] {
      var front := values[..|values| - 1];
      SentInOrder(r, front);
      if |front| < 16 {
        assert front + [values[|values| - 1]] == values;
      } else {
        assert front[..16] == values[..16];
      }
    }
  }

  // What is sent comes out pair by pair, as signed values.
  lemma SentComesOut(r: BtdmpState, values: seq<u16>, n: nat, k: nat)
    requires r.queue == [] && r.empty && !r.full && 2 * n <= |values| <= 16 && k < n
    ensures var e := Transmits(SentAll(r, values), n);
            && |e.samples| == |r.samples| + n
            && var (first, second) := e.samples[|r.samples| + k];
               && (first - values[2 * k]) % 0x1_0000 == 0 && (second - values[2 * k + 1]) % 0x1_0000 == 0
  {
    hide Transmits;
    SentInOrder(r, values);
    SamplesAreTheQueue(SentAll(r, values), n, k);
  }

  lemma {:induction false} TicksValid(r: BtdmpState, n: nat)
    requires r.Valid()
    ensures Ticks(r, n).Valid()
  {
    if n > 0 {
      TicksValid(r, n - 1);
    }
  }

  lemma {:induction false} DrainsValid(r: BtdmpState, n: nat)
    requires r.Valid() && (r.queue == [] || |r.queue| > 2 * n)
    ensures var d := Drains(r, n); d.Valid() && d.period == r.period && d.enable == r.enable && d.irqs == r.irqs
  {
    if n > 0 {
      DrainsValid(r, n - 1);
    }
  }

  lemma JumpValid(r: BtdmpState, n: nat)
    requires r.Valid() && r.Skippable(n) && n <= MaxSkip(r)
    ensures var j := Jump(r, n); j.Valid() && j.period == r.period && j.enable == r.enable && j.irqs == r.irqs
  {
    hide MaxSkip, Drains;
    if r.enable {
      FewTransmits(r, n);
      DrainsValid(r, Quot(SkipBase(r) + n, r.period));
    }
  }

  // The jump in the order Skip performs it: first the timer, then the transmits.
  lemma JumpFromTimer(r: BtdmpState, n: nat)
    requires r.Skippable(n) && n <= MaxSkip(r)
    ensures !r.enable ==> Jump(r, n) == r
    ensures r.enable ==>
      var cycles, rest := Quot(SkipBase(r) + n, r.period), Rem(SkipBase(r) + n, r.period);
      (r.queue == [] || |r.queue| > 2 * cycles) && Jump(r, n) == Drains(r.(timer := rest), cycles)
  {
    hide MaxSkip, Drains, Quot, Rem;
    if r.enable {
      FewTransmits(r, n);
      DrainsAnyTimer(r, Quot(SkipBase(r) + n, r.period), Rem(SkipBase(r) + n, r.period));
    }
  }

  class Btdmp {
    var transmitPeriod: u16
    var transmitTimer: u16
    var transmitEnable: bool
    var transmitEmpty: bool
    var transmitFull: bool
    var transmitQueue: seq<u16>
    ghost var samples: seq<(s16, s16)>
    ghost var irqs: nat

    ghost function State(): BtdmpState
      reads this
    {
      BtdmpState(transmitPeriod, transmitTimer, transmitEnable, transmitEmpty, transmitFull, transmitQueue,
                 samples, irqs)
    }

    ghost predicate Valid()
      reads this
    {
      State().Valid()
    }

    constructor ()
      ensures Valid()
      ensures State() == BtdmpState(4096, 0, false, true, false, [], [], 0)
    {
      transmitPeriod, transmitTimer, transmitEnable := 4096, 0, false;
      transmitEmpty, transmitFull, transmitQueue := true, false, [];
      samples, irqs := [], 0;
    }

    method Send(value: u16)
      requires Valid()
      modifies this
      ensures Valid()
      ensures State() == Sent(old(State()), value)
    {
      if |transmitQueue| != CAPACITY {
        transmitQueue := transmitQueue + [value];
        transmitEmpty := false;
        transmitFull := |transmitQueue| == CAPACITY;
      }
    }

    method SetTransmitFlush()
      requires Valid()
      modifies this
      ensures Valid()
      ensures State() == Flushed(old(State()))
    {
      transmitQueue := [];
      transmitEmpty := true;
      transmitFull := false;
    }

    method Pop() returns (sample: s16)
      requires Valid()
      modifies this
      ensures Valid()
      ensures State() == Popped(old(State())) && sample == Front(old(State()))
    {
      if transmitQueue == [] {
        sample := 0;
      } else {
        sample := Signed16(transmitQueue[0]);
        transmitQueue := transmitQueue[1..];
        transmitEmpty := transmitQueue == [];
        transmitFull := false;
        if transmitEmpty {
          irqs := irqs + 1;
        }
      }
    }

    method Tick()
      requires Valid()
      modifies this
      ensures Valid()
      ensures State() == OneTick(old(State()))
    {
      if transmitEnable {
        transmitTimer := (transmitTimer + 1) % 0x1_0000;
        if transmitTimer >= transmitPeriod {
          transmitTimer := 0;
          var first := Pop();
          var second := Pop();
          samples := samples + [(first, second)];
        }
      }
    }

    method GetMaxSkip() returns (ticks: u64)
      requires Valid()
      ensures ticks == MaxSkip(State())
      ensures Ticks(State(), ticks).irqs == irqs
      ensures transmitEnable && transmitQueue != [] ==>
        Ticks(State(), ticks + 1).irqs == if EmptiesNext(State()) then irqs + 1 else irqs
    {
      BoundIsSilent(State(), MaxSkip(State()));
      if State().enable && State().queue != [] {
        BoundIsTightExactly(State());
      }
      if !transmitEnable || transmitQueue == [] {
        return INFINITY;
      }
      ticks := 0;
      if transmitTimer < transmitPeriod {
        ticks := ticks + (transmitPeriod - transmitTimer - 1);
      }
      TimesIsProduct((|transmitQueue| + 1) / 2 - 1, transmitPeriod);
      TimesU16((|transmitQueue| + 1) / 2 - 1, transmitPeriod);
      ticks := ticks + ((|transmitQueue| + 1) / 2 - 1) * transmitPeriod;
    }

    // The pop inside Skip, with the assertion the source makes there.
    method SkippedSample() returns (sample: s16)
      requires Valid() && |transmitQueue| != 1
      modifies this
      ensures Valid()
      ensures if old(transmitQueue) == [] then State() == old(State()) && sample == 0
              else State() == old(State()).(queue := old(transmitQueue)[1..], full := false)
                   && sample == Signed16(old(transmitQueue)[0])
    {
      sample := 0;
      if transmitQueue != [] {
        sample := Signed16(transmitQueue[0]);
        transmitQueue := transmitQueue[1..];
        assert transmitQueue != [];
        transmitFull := false;
      }
    }

    // The loop of Skip: whole transmits, none of which empties the queue.
    method SkipTransmits(cycles: nat)
      requires Valid()
      requires transmitQueue == [] || |transmitQueue| > 2 * cycles
      modifies this
      ensures Valid()
      ensures State() == Drains(old(State()), cycles)
    {
      ghost var s := State();
      for c := 0 to cycles
        invariant Valid()
        invariant State() == Drains(s, c)
      {
        ghost var before := State();
        var first := SkippedSample();
        var second := SkippedSample();
        samples := samples + [(first, second)];
        assert State() == Drain(before);
      }
    }

    static method Divide(x: u64, d: u16) returns (q: nat, m: u16)
      requires d > 0
      ensures q == Quot(x, d) && m == Rem(x, d)
    {
      hide Quot, Rem;
      QuotRemAreDivMod(x, d);
      q, m := x / d, x % d;
    }

    method Skip(ticks: u64)
      requires Valid() && State().Skippable(ticks) && ticks <= MaxSkip(State())
      modifies this
      ensures Valid()
      ensures State() == Jump(old(State()), ticks)
    {
      hide MaxSkip, Drains, Jump, Quot, Rem;
      JumpFromTimer(State(), ticks);
      if !transmitEnable {
        return;
      }
      if transmitTimer >= transmitPeriod {
        transmitTimer := 0;
      }
      var futureTimer: u64 := transmitTimer + ticks;
      var cycles, rest := Divide(futureTimer, transmitPeriod);
      transmitTimer := rest;
      SkipTransmits(cycles);
    }
  }
}
