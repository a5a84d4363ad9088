// The programmable timer: one cycle at a time (Tick) and many at once (Skip).
module Timers {
  import opened Words
  import opened Arith

  datatype CountMode = Single | AutoRestart | FreeRunning | EventCount

  // The bound GetMaxSkip reports when no interrupt is in sight.
  const INFINITY: u64 := 0xFFFF_FFFF_FFFF_FFFF

  // What a timer holds between two cycles; `irqs` counts the calls of its
  // interrupt handler.
  datatype TimerState = TimerState(
    updateMmio: bool,
    pause: bool,
    mode: CountMode,
    startHigh: u16,
    startLow: u16,
    counter: u32,
    counterHigh: u16,
    counterLow: u16,
    irqs: nat
  ) {
    function Reload(): u32 {
      startHigh * 0x1_0000 + startLow
    }

    function Mirrored(): TimerState {
      if updateMmio then this.(counterHigh := counter / 0x1_0000, counterLow := counter % 0x1_0000) else this
    }

    predicate Counting() {
      !pause && mode != EventCount
    }

    // An auto-restart timer resting at zero with a zero reload value: ticking
    // reloads it to zero for ever and never fires.
    predicate Stuck() {
      !pause && mode == AutoRestart && counter == 0 && Reload() == 0
    }

    function Decremented(): TimerState
      requires counter > 0
    {
      var t := this.(counter := counter - 1).Mirrored();
      if t.counter == 0 then t.(irqs := irqs + 1) else t
    }

    function Tick(): TimerState {
      if !Counting() then this
      else if counter > 0 then Decremented()
      else match mode
        case AutoRestart => this.(counter := Reload()).Mirrored()
        case FreeRunning => this.(counter := 0xFFFF_FFFF).Mirrored()
        case _ => this
    }

    // The reference for skipping: n single ticks, one after the other.
    function Ticks(n: nat): TimerState {
      if n == 0 then this else Ticks(n - 1).Tick()
    }

    function MaxSkip(): u64 {
      if !Counting() then INFINITY
      else if counter > 0 then counter - 1
      else match mode
        case AutoRestart => Reload()
        case FreeRunning => 0xFFFF_FFFF
        case _ => INFINITY
    }

    function Skip(n: nat): TimerState
      requires n <= MaxSkip()
    {
      if !Counting() then this
      else if counter > 0 then this.(counter := counter - n).Mirrored()
      else match mode
        case AutoRestart => this.(counter := (Reload() + 1 - n) % 0x1_0000_0000).Mirrored()
        case FreeRunning => this.(counter := (0x1_0000_0000 - n) % 0x1_0000_0000).Mirrored()
        case _ => this
    }

    // Cycles from one interrupt to the next once the counter has reached zero.
    function Period(): nat
      requires Counting() && mode != Single
    {
      if mode == AutoRestart then Reload() + 1 else 0x1_0000_0000
    }
  }

  // The mirrored words make up the counter while updating is on, and the two
  // start words the reload value, high word first.
  lemma WordsMakeCounter(s: TimerState)
    ensures s.Reload() / 0x1_0000 == s.startHigh && s.Reload() % 0x1_0000 == s.startLow
    ensures s.updateMmio ==> s.Mirrored().counter == s.Mirrored().counterLow + 0x1_0000 * s.Mirrored().counterHigh
    ensures !s.updateMmio ==> s.Mirrored() == s
    ensures s.Mirrored() == s.(counterHigh := s.Mirrored().counterHigh, counterLow := s.Mirrored().counterLow)
  {
  }

  lemma {:induction false} TicksAdd(s: TimerState, m: nat, n: nat)
    ensures s.Ticks(m + n) == s.Ticks(m).Ticks(n)
  {
    if n > 0 {
      TicksAdd(s, m, n - 1);
    }
  }

  lemma {:induction false} TicksIdle(s: TimerState, n: nat)
    requires s.Tick() == s
    ensures s.Ticks(n) == s
  {
    if n > 0 {
      TicksIdle(s, n - 1);
    }
  }

  // While it stays positive the counter just counts down.
  lemma {:induction false} TicksCountDown(s: TimerState, n: nat)
    requires s.Counting() && 0 < n < s.counter
    ensures s.Ticks(n) == s.(counter := s.counter - n).Mirrored()
  {
    if n > 1 {
      TicksCountDown(s, n - 1);
    } else {
      assert s.Ticks(0) == s;
    }
  }

  // From zero, the first tick reloads and the rest count down.
  lemma {:induction false} TicksFromZero(s: TimerState, n: nat)
    requires s.Counting() && !s.mode.Single? && s.counter == 0
    requires 1 <= n <= s.MaxSkip()
    ensures s.Ticks(n) == s.(counter := s.MaxSkip() + 1 - n).Mirrored()
  {
    var t := s.Tick();
    assert t == s.(counter := s.MaxSkip()).Mirrored();
    assert s.Ticks(1) == s.Ticks(0).Tick() == t;
    if n > 1 {
      TicksAdd(s, 1, n - 1);
      TicksCountDown(t, n - 1);
    }
  }

  // A jump of at least one cycle within the bound is exactly that many ticks.
  lemma {:induction false} SkipIsTicks(s: TimerState, n: nat)
    requires 1 <= n <= s.MaxSkip()
    ensures s.Skip(n) == s.Ticks(n)
    ensures s.Ticks(n).irqs == s.irqs
  {
    hide TimerState.Ticks, TimerState.Reload;
    if !s.Counting() || (s.mode.Single? && s.counter == 0) {
      TicksIdle(s, n);
    } else {
      if s.counter > 0 {
        TicksCountDown(s, n);
      } else {
        TicksFromZero(s, n);
      }
    }
  }

  // No interrupt falls inside the bound.
  lemma MaxSkipIsSilent(s: TimerState, n: nat)
    requires n <= s.MaxSkip()
    ensures s.Ticks(n).irqs == s.irqs
  {
    if n > 0 {
      SkipIsTicks(s, n);
    }
  }

  // A jump followed by a tick or more, which is how the idle loop uses it,
  // agrees with ticking except for the stuck timer, where the jump by zero
  // cycles leaves the counter at one and the next tick then fires.
  lemma SkipThenTicksExactly(s: TimerState, n: nat, j: nat)
    requires n <= s.MaxSkip() && j > 0
    ensures s.Skip(n).Ticks(j) == s.Ticks(n + j) <==> !s.Stuck()
  {
    hide TimerState.Tick, TimerState.Skip;
    TicksAdd(s, n, j);
    if n > 0 {
      SkipIsTicks(s, n);
      assert !s.Stuck();
    } else {
      assert s.Ticks(0) == s && s.Ticks(1) == s.Tick() && s.Skip(0).Ticks(1) == s.Skip(0).Tick();
      TicksAdd(s, 1, j - 1);
      TicksAdd(s.Skip(0), 1, j - 1);
      SkipNoneThenTick(s);
      if s.Stuck() {
        StuckNeverFires(s, j);
        IrqsNeverDrop(s.Skip(0).Tick(), j - 1);
      }
    }
  }

  lemma SkipNoneThenTick(s: TimerState)
    ensures !s.Stuck() ==> s.Skip(0).Tick() == s.Tick()
    ensures s.Stuck() ==> s.Skip(0).Tick().irqs == s.irqs + 1
  {
  }

  lemma {:induction false} IrqsNeverDrop(s: TimerState, n: nat)
    ensures s.Ticks(n).irqs >= s.irqs
  {
    if n > 0 {
      IrqsNeverDrop(s, n - 1);
    }
  }

  // A finite bound is tight: the very next tick fires exactly once, again
  // except for the stuck timer, which never fires at all.
  lemma MaxSkipIsTightExactly(s: TimerState)
    requires s.MaxSkip() < INFINITY
    ensures s.Ticks(s.MaxSkip() + 1).irqs == s.irqs + 1 <==> !s.Stuck()
    ensures s.Stuck() ==> forall n: nat :: s.Ticks(n).irqs == s.irqs
  {
    hide TimerState.Ticks;
    if s.Stuck() {
      forall k: nat ensures s.Ticks(k).irqs == s.irqs {
        StuckNeverFires(s, k);
      }
    } else {
      BoundRunsOut(s);
      MaxSkipIsSilent(s, s.MaxSkip());
      TickUnfold(s, s.MaxSkip());
      TicksKeepMode(s, s.MaxSkip());
    }
  }

  lemma TickUnfold(s: TimerState, n: nat)
    ensures s.Ticks(0) == s && s.Ticks(n + 1) == s.Ticks(n).Tick()
  {
  }

  lemma {:induction false} TicksKeepMode(s: TimerState, n: nat)
    ensures s.Ticks(n).Counting() == s.Counting() && s.Ticks(n).mode == s.mode && s.Ticks(n).Reload() == s.Reload()
  {
    if n > 0 {
      TicksKeepMode(s, n - 1);
    }
  }

  lemma {:induction false} StuckNeverFires(s: TimerState, n: nat)
    requires s.Stuck()
    ensures s.Ticks(n).Stuck() && s.Ticks(n).irqs == s.irqs
  {
    if n > 0 {
      StuckNeverFires(s, n - 1);
    }
  }

  // An unbounded skip is honest: such a timer never fires.
  lemma InfiniteBoundNeverFires(s: TimerState, n: nat)
    requires s.MaxSkip() == INFINITY
    ensures s.Ticks(n) == s
  {
  }

  // A finite bound counts down with the ticks.
  lemma BoundRunsOut(s: TimerState)
    requires s.MaxSkip() < INFINITY && !s.Stuck()
    ensures s.Ticks(s.MaxSkip()).MaxSkip() == 0 && s.Ticks(s.MaxSkip()).counter == 1
  {
    var n := s.MaxSkip();
    if n == 0 {
      assert s.Ticks(0) == s;
    } else if s.counter > 0 {
      TicksCountDown(s, n);
    } else {
      TicksFromZero(s, n);
    }
  }

  // Equal but for the mirrored words.
  predicate SameTiming(t: TimerState, s: TimerState) {
    t.(counterHigh := s.counterHigh, counterLow := s.counterLow) == s
  }

  lemma PeriodIsBound(s: TimerState)
    requires s.Counting() && !s.mode.Single? && s.counter == 0 && !s.Stuck()
    ensures s.Period() == s.MaxSkip() + 1 && s.MaxSkip() >= 1
  {
  }

  lemma LastTick(s: TimerState)
    requires s.Counting() && !s.mode.Single? && s.counter == 0
    ensures SameTiming(s.(counter := 1).Mirrored().Tick(), s.(irqs := s.irqs + 1))
  {
    hide TimerState.Reload;
  }

  lemma OnePeriod(s: TimerState)
    requires s.Counting() && !s.mode.Single? && s.counter == 0 && !s.Stuck()
    ensures SameTiming(s.Ticks(s.Period()), s.(irqs := s.irqs + 1))
  {
    hide TimerState.Ticks, TimerState.MaxSkip, TimerState.Period, TimerState.Tick, SameTiming;
    PeriodIsBound(s);
    TicksFromZero(s, s.MaxSkip());
    TickUnfold(s, s.MaxSkip());
    LastTick(s);
  }

  lemma SameTimingTransfers(t: TimerState, s: TimerState)
    requires SameTiming(t, s)
    ensures t.Counting() == s.Counting() && t.mode == s.mode && t.counter == s.counter
    ensures t.Stuck() == s.Stuck() && t.irqs == s.irqs
    ensures s.Counting() && s.mode != Single ==> t.Period() == s.Period()
  {
  }

  // From rest at zero an auto-restart or free-running timer fires once every
  // Period() cycles and is back at rest each time.
  lemma {:induction false} FiresOncePerPeriod(s: TimerState, rounds: nat)
    requires s.Counting() && !s.mode.Single? && s.counter == 0 && !s.Stuck()
    ensures SameTiming(s.Ticks(Times(rounds, s.Period())), s.(irqs := s.irqs + rounds))
  {
    if rounds > 0 {
      FiresOncePerPeriod(s, rounds - 1);
      var t := s.Ticks(Times(rounds - 1, s.Period()));
      TicksAdd(s, Times(rounds - 1, s.Period()), s.Period());
      SameTimingTransfers(t, s.(irqs := s.irqs + rounds - 1));
      OnePeriod(t);
    } else {
      assert s.Ticks(0) == s;
    }
  }

  // The two readings of a jump that the object promises.
  lemma SkipMeans(s: TimerState, n: nat)
    requires n <= s.MaxSkip()
    ensures n > 0 ==> s.Skip(n) == s.Ticks(n)
    ensures s.Skip(n).Tick() == s.Ticks(n + 1) <==> !s.Stuck()
  {
    hide TimerState.Tick, TimerState.Stuck, TimerState.Skip, TimerState.MaxSkip;
    SkipThenTicksExactly(s, n, 1);
    assert s.Skip(n).Ticks(1) == s.Skip(n).Ticks(0).Tick();
    if n > 0 {
      SkipIsTicks(s, n);
    }
  }

  class Timer {
    var updateMmio: bool
    var pause: bool
    var mode: CountMode
    var scale: u16
    var startHigh: u16
    var startLow: u16
    var counter: u32
    var counterHigh: u16
    var counterLow: u16
    ghost var irqs: nat

    ghost function State(): TimerState
      reads this
    {
      TimerState(updateMmio, pause, mode, startHigh, startLow, counter, counterHigh, counterLow, irqs)
    }

    constructor ()
      ensures State() == TimerState(false, false, Single, 0, 0, 0, 0, 0, 0)
      ensures scale == 0
    {
      updateMmio, pause, mode, scale := false, false, Single, 0;
      startHigh, startLow, counter, counterHigh, counterLow := 0, 0, 0, 0, 0;
      irqs := 0;
    }

    method UpdateMMIO()
      modifies this
      ensures State() == old(State()).Mirrored()
      ensures scale == old(scale)
    {
      if !updateMmio {
        return;
      }
      counterHigh := counter / 0x1_0000;
      counterLow := counter % 0x1_0000;
    }

    method Restart()
      modifies this
      ensures State() == if mode.FreeRunning? then old(State())
                         else old(State()).(counter := old(State()).Reload()).Mirrored()
      ensures scale == old(scale)
    {
      if !mode.FreeRunning? {
        counter := startHigh * 0x1_0000 + startLow;
        UpdateMMIO();
      }
    }

    method Tick()
      requires scale == 0
      modifies this
      ensures State() == old(State()).Tick()
      ensures scale == 0
    {
      if pause {
        return;
      }
      if mode.EventCount? {
        return;
      }
      if counter == 0 {
        if mode.AutoRestart? {
          Restart();
        } else if mode.FreeRunning? {
          counter := 0xFFFF_FFFF;
          UpdateMMIO();
        }
      } else {
        counter := counter - 1;
        UpdateMMIO();
        if counter == 0 {
          irqs := irqs + 1;
        }
      }
    }

    // An external event counts like a cycle of a free counter, but only in
    // event-count mode, and does nothing at zero.
    method TickEvent()
      modifies this
      ensures State() == if pause || !mode.EventCount? || old(counter) == 0 then old(State())
                         else old(State()).Decremented()
      ensures scale == old(scale)
    {
      if pause {
        return;
      }
      if !mode.EventCount? {
        return;
      }
      if counter == 0 {
        return;
      }
      counter := counter - 1;
      UpdateMMIO();
      if counter == 0 {
        irqs := irqs + 1;
      }
    }

    method GetMaxSkip() returns (ticks: u64)
      ensures ticks == State().MaxSkip()
      ensures forall n: nat :: n <= ticks ==> State().Ticks(n).irqs == irqs
      ensures ticks < INFINITY ==> (State().Ticks(ticks + 1).irqs == irqs + 1 <==> !State().Stuck())
    {
      ghost var s := State();
      forall n: nat | n <= s.MaxSkip() ensures s.Ticks(n).irqs == s.irqs {
        MaxSkipIsSilent(s, n);
      }
      if s.MaxSkip() < INFINITY {
        MaxSkipIsTightExactly(s);
      }
      if pause || mode.EventCount? {
        return INFINITY;
      }
      if counter == 0 {
        if mode.AutoRestart? {
          return startHigh * 0x1_0000 + startLow;
        } else if mode.FreeRunning? {
          return 0xFFFF_FFFF;
        } else {
          return INFINITY;
        }
      }
      return counter - 1;
    }

    method Skip(ticks: u64)
      requires ticks <= State().MaxSkip()
      modifies this
      ensures State() == old(State()).Skip(ticks)
      ensures ticks > 0 ==> State() == old(State()).Ticks(ticks)
      ensures State().Tick() == old(State()).Ticks(ticks + 1) <==> !old(State()).Stuck()
      ensures scale == old(scale)
    {
      hide TimerState.Tick, TimerState.Ticks, TimerState.Stuck;
      SkipMeans(State(), ticks);
      if pause || mode.EventCount? {
        return;
      }
      if counter == 0 {
        var reset: u32;
        if mode.AutoRestart? {
          reset := startHigh * 0x1_0000 + startLow;
        } else if mode.FreeRunning? {
          reset := 0xFFFF_FFFF;
        } else {
          return;
        }
        assert reset >= ticks;
        counter := (reset - (ticks - 1)) % 0x1_0000_0000;
      } else {
        assert counter > ticks;
        counter := counter - ticks;
      }
      UpdateMMIO();
    }
  }
}
