// The list of timed components, advanced together one round at a time or
// jumped over many rounds at once.
module CoreTimings {
  import opened Words
  import opened Timers
  import opened Btdmps

  datatype Component = TimerPart(timer: TimerState) | BtdmpPart(btdmp: BtdmpState) {
    predicate Valid() {
      BtdmpPart? ==> btdmp.Valid()
    }

    function Tick(): Component {
      match this
      case TimerPart(t) => TimerPart(t.Tick())
      case BtdmpPart(b) => BtdmpPart(OneTick(b))
    }

    function Ticks(n: nat): Component {
      match this
      case TimerPart(t) => TimerPart(t.Ticks(n))
      case BtdmpPart(b) => BtdmpPart(Btdmps.Ticks(b, n))
    }

    function MaxSkip(): nat {
      match this
      case TimerPart(t) => t.MaxSkip()
      case BtdmpPart(b) => Btdmps.MaxSkip(b)
    }

    // A jump over n rounds is defined: Skip neither divides by zero nor overflows.
    predicate Skippable(n: nat) {
      BtdmpPart? ==> btdmp.Skippable(n)
    }

    function Skip(n: nat): Component
      requires Skippable(n) && n <= MaxSkip()
    {
      match this
      case TimerPart(t) => TimerPart(t.Skip(n))
      case BtdmpPart(b) => BtdmpPart(Jump(b, n))
    }

    function Irqs(): nat {
      match this
      case TimerPart(t) => t.irqs
      case BtdmpPart(b) => b.irqs
    }

    // Jumping is faithful: not a timer stuck at zero with a zero reload, and
    // not an enabled transmitter whose timer has left its period.
    predicate Ready() {
      match this
      case TimerPart(t) => !t.Stuck()
      case BtdmpPart(b) => !b.enable || InStep(b)
    }
  }

  lemma SkipThenTicksExactly(c: Component, n: nat, j: nat)
    requires c.Valid() && c.Skippable(n) && n <= c.MaxSkip()
    ensures j > 0 ==> (c.Skip(n).Ticks(j) == c.Ticks(n + j) <==> c.Ready())
    ensures c.Skip(n).Irqs() == c.Irqs()
  {
    hide OneTick, Btdmps.Ticks, Btdmps.MaxSkip, Jump, TimerState.Tick, TimerState.Ticks, InStep;
    match c
    case TimerPart(t) =>
      if j > 0 {
        Timers.SkipThenTicksExactly(t, n, j);
      }
    case BtdmpPart(b) =>
      if j > 0 {
        Btdmps.SkipThenTicksExactly(b, n, j);
      }
      JumpValid(b, n);
  }

  lemma SkipIsTicks(c: Component, n: nat)
    requires c.Valid() && c.Skippable(n) && 1 <= n <= c.MaxSkip() && c.Ready()
    ensures c.Skip(n) == c.Ticks(n)
  {
    hide OneTick, Btdmps.Ticks, Btdmps.MaxSkip, Jump, TimerState.Tick, TimerState.Ticks, InStep;
    match c
    case TimerPart(t) =>
      Timers.SkipIsTicks(t, n);
    case BtdmpPart(b) =>
      Btdmps.SkipIsTicksExactly(b, n);
  }

  lemma TicksUnfold(c: Component, n: nat)
    ensures c.Ticks(0) == c && c.Ticks(n + 1) == c.Ticks(n).Tick()
  {
  }

  type Components = seq<Component>

  predicate AllValid(cs: Components) {
    forall i :: 0 <= i < |cs| ==> cs[i].Valid()
  }

  predicate AllReady(cs: Components) {
    forall i :: 0 <= i < |cs| ==> cs[i].Ready()
  }

  predicate AllSkippable(cs: Components, n: nat) {
    forall i :: 0 <= i < |cs| ==> cs[i].Skippable(n) && n <= cs[i].MaxSkip()
  }

  // One tick of every component.
  function Round(cs: Components): (r: Components)
    ensures |r| == |cs|
  {
    seq(|cs|, i requires 0 <= i < |cs| => cs[i].Tick())
  }

  // The reference for skipping: n rounds, every component ticking in each.
  function Rounds(cs: Components, n: nat): (r: Components)
    ensures |r| == |cs|
  {
    if n == 0 then cs else Round(Rounds(cs, n - 1))
  }

  function Min(a: nat, b: nat): nat {
    if a < b then a else b
  }

  // The number of rounds a jump covers: the least bound of all components.
  function MinSkip(cs: Components, maximum: nat): nat {
    if cs == [] then maximum else Min(MinSkip(cs[..|cs| - 1], maximum), cs[|cs| - 1].MaxSkip())
  }

  lemma {:induction false} MinSkipIsLeast(cs: Components, maximum: nat)
    ensures MinSkip(cs, maximum) <= maximum
    ensures forall i :: 0 <= i < |cs| ==> MinSkip(cs, maximum) <= cs[i].MaxSkip()
    ensures MinSkip(cs, maximum) == maximum || exists i :: 0 <= i < |cs| && MinSkip(cs, maximum) == cs[i].MaxSkip()
  {
    hide Component.MaxSkip;
    if cs != [] {
      var front := cs[..|cs| - 1];
      MinSkipIsLeast(front, maximum);
      assert forall i :: 0 <= i < |front| ==> front[i] == cs[i];
    }
  }

  function SkipAll(cs: Components, n: nat): (r: Components)
    requires AllSkippable(cs, n)
    ensures |r| == |cs|
  {
    seq(|cs|, i requires 0 <= i < |cs| => cs[i].Skip(n))
  }

  // Rounds and components can be exchanged: component i after n rounds is
  // component i after n of its own ticks.
  lemma {:induction false} RoundsAreTicks(cs: Components, n: nat, i: nat)
    requires i < |cs|
    ensures Rounds(cs, n)[i] == cs[i].Ticks(n)
  {
    hide Component.Ticks, Component.Tick;
    if n > 0 {
      RoundsAreTicks(cs, n - 1, i);
      TicksUnfold(cs[i], n - 1);
    } else {
      TicksUnfold(cs[i], 0);
    }
  }

  lemma MinSkipIsSkippable(cs: Components, maximum: nat)
    requires forall i :: 0 <= i < |cs| ==> cs[i].Skippable(maximum)
    ensures AllSkippable(cs, MinSkip(cs, maximum))
  {
    hide Component.Skippable;
    MinSkipIsLeast(cs, maximum);
    forall i | 0 <= i < |cs| ensures cs[i].Skippable(MinSkip(cs, maximum)) {
      SkippableLess(cs[i], maximum, MinSkip(cs, maximum));
    }
  }

  // The jump, component by component, followed by one round or more is
  // exactly that many rounds, if and only if every component was ready for it.
  lemma SkipAllThenRoundsExactly(cs: Components, n: nat, j: nat)
    requires AllValid(cs) && AllSkippable(cs, n) && j > 0
    ensures Rounds(SkipAll(cs, n), j) == Rounds(cs, n + j) <==> AllReady(cs)
  {
    var fast, slow := Rounds(SkipAll(cs, n), j), Rounds(cs, n + j);
    forall i | 0 <= i < |cs| ensures fast[i] == slow[i] <==> cs[i].Ready() {
      SkipThenTicksExactly(cs[i], n, j);
      RoundsAreTicks(cs, n + j, i);
      RoundsAreTicks(SkipAll(cs, n), j, i);
    }
    EqualIffPointwise(fast, slow, cs);
  }

  lemma EqualIffPointwise(fast: Components, slow: Components, cs: Components)
    requires |fast| == |slow| == |cs|
    requires forall i :: 0 <= i < |cs| ==> (fast[i] == slow[i] <==> cs[i].Ready())
    ensures fast == slow <==> AllReady(cs)
  {
  }

  // A jump over at least one round is that many rounds.
  lemma SkipAllIsRounds(cs: Components, n: nat)
    requires AllValid(cs) && AllSkippable(cs, n) && AllReady(cs) && n > 0
    ensures SkipAll(cs, n) == Rounds(cs, n)
  {
    forall i | 0 <= i < |cs| ensures SkipAll(cs, n)[i] == Rounds(cs, n)[i] {
      SkipIsTicks(cs[i], n);
      RoundsAreTicks(cs, n, i);
    }
  }

  // No component raises an interrupt in any of the skipped rounds.
  lemma SkippedRoundsAreSilent(cs: Components, n: nat, j: nat, i: nat)
    requires AllValid(cs) && AllSkippable(cs, n) && AllReady(cs)
    requires j <= n && i < |cs|
    ensures Rounds(cs, j)[i].Irqs() == cs[i].Irqs()
  {
    RoundsAreTicks(cs, j, i);
    if j > 0 {
      SkippableLess(cs[i], n, j);
      SkipIsTicks(cs[i], j);
      SkipThenTicksExactly(cs[i], j, 0);
    } else {
      TicksUnfold(cs[i], 0);
    }
  }

  lemma SkippableLess(c: Component, n: nat, j: nat)
    requires c.Skippable(n) && j <= n
    ensures c.Skippable(j)
  {
  }

  // A finite bound counts down with the rounds: when they are over, the
  // component is due.
  lemma ComponentRunsOut(c: Component)
    requires c.Valid() && c.Skippable(c.MaxSkip()) && c.Ready() && c.MaxSkip() < INFINITY
    ensures c.Ticks(c.MaxSkip()).MaxSkip() == 0
  {
    match c
    case TimerPart(t) => Timers.BoundRunsOut(t);
    case BtdmpPart(b) => Btdmps.BoundRunsOut(b);
  }

  lemma BoundRunsOut(cs: Components, maximum: nat)
    requires AllValid(cs) && AllReady(cs) && maximum <= 0xFFFF_FFFF_FFFF_0000
    requires AllSkippable(cs, MinSkip(cs, maximum)) && MinSkip(cs, maximum) < maximum
    ensures MinSkip(Rounds(cs, MinSkip(cs, maximum)), 1) == 0
  {
    hide Component.MaxSkip, Component.Ticks, Component.Ready, Component.Valid, Component.Skippable, MinSkip, Rounds;
    MinSkipIsLeast(cs, maximum);
    var k := MinSkip(cs, maximum);
    var i :| 0 <= i < |cs| && k == cs[i].MaxSkip();
    ComponentRunsOut(cs[i]);
    RoundsAreTicks(cs, k, i);
    MinSkipIsLeast(Rounds(cs, k), 1);
  }

  // A registered component object; the handler only ever sees these calls.
  datatype Callbacks = OnTimer(timer: Timer) | OnBtdmp(btdmp: Btdmp) {
    ghost function Object(): object {
      match this
      case OnTimer(t) => t
      case OnBtdmp(b) => b
    }

    ghost predicate Valid()
      reads Object()
    {
      match this
      case OnTimer(t) => t.scale == 0
      case OnBtdmp(b) => b.Valid()
    }

    ghost function State(): Component
      reads Object()
    {
      match this
      case OnTimer(t) => TimerPart(t.State())
      case OnBtdmp(b) => BtdmpPart(b.State())
    }

    method Tick()
      requires Valid()
      modifies Object()
      ensures Valid() && State() == old(State()).Tick()
    {
      match this
      case OnTimer(t) => t.Tick();
      case OnBtdmp(b) => b.Tick();
    }

    method GetMaxSkip() returns (ticks: u64)
      requires Valid()
      ensures ticks == State().MaxSkip()
    {
      match this
      case OnTimer(t) => ticks := t.GetMaxSkip();
      case OnBtdmp(b) => ticks := b.GetMaxSkip();
    }

    method Skip(ticks: u64)
      requires Valid() && State().Skippable(ticks) && ticks <= State().MaxSkip()
      modifies Object()
      ensures Valid() && State() == old(State()).Skip(ticks)
    {
      match this
      case OnTimer(t) => t.Skip(ticks);
      case OnBtdmp(b) => b.Skip(ticks);
    }
  }

  class CoreTiming {
    var registered: seq<Callbacks>

    ghost function Objects(): set<object>
      reads this
    {
      set i | 0 <= i < |registered| :: registered[i].Object()
    }

    // Distinct valid components.
    ghost predicate Valid()
      reads this, Objects()
    {
      && this !in Objects()
      && (forall i :: 0 <= i < |registered| ==> registered[i].Valid())
      && (forall i, j :: 0 <= i < j < |registered| ==> registered[i].Object() != registered[j].Object())
    }

    ghost function States(): (s: Components)
      reads this, Objects()
      ensures |s| == |registered|
    {
      seq(|registered|, i requires 0 <= i < |registered| reads this, Objects() => registered[i].State())
    }

    constructor ()
      ensures Valid() && States() == []
    {
      registered := [];
    }

    method RegisterCallbacks(callbacks: Callbacks)
      requires Valid() && callbacks.Valid()
      requires callbacks.Object() != this && callbacks.Object() !in Objects()
      modifies this
      ensures Valid() && registered == old(registered) + [callbacks]
      ensures States() == old(States()) + [callbacks.State()]
    {
      registered := registered + [callbacks];
    }

    method Tick()
      requires Valid()
      modifies Objects()
      ensures Valid() && registered == old(registered)
      ensures States() == Round(old(States()))
    {
      hide Component.Tick, Callbacks.State, Callbacks.Valid;
      ghost var before := States();
      for i := 0 to |registered|
        invariant Valid() && registered == old(registered)
        invariant forall j :: 0 <= j < i ==> registered[j].State() == before[j].Tick()
        invariant forall j :: i <= j < |registered| ==> registered[j].State() == before[j]
      {
        assert registered[i].Object() in Objects();
        registered[i].Tick();
      }
    }

    // The first loop of Skip: the number of rounds no component objects to.
    method GetMaxSkip(maximum: u64) returns (ticks: u64)
      requires Valid()
      ensures ticks == MinSkip(States(), maximum)
    {
      hide Component.MaxSkip, Callbacks.State, Callbacks.Valid;
      ticks := maximum;
      ghost var states := States();
      for i := 0 to |registered|
        invariant ticks == MinSkip(states[..i], maximum)
      {
        var bound := registered[i].GetMaxSkip();
        assert states[..i + 1][..i] == states[..i];
        ticks := if ticks < bound then ticks else bound;
      }
      assert states[..|registered|] == states;
    }

    // The second loop of Skip: every component jumps over the same rounds.
    method SkipEach(ticks: u64)
      requires Valid() && AllSkippable(States(), ticks)
      modifies Objects()
      ensures Valid() && registered == old(registered)
      ensures States() == SkipAll(old(States()), ticks)
    {
      hide Component.Skip, Component.MaxSkip, Component.Skippable, Callbacks.State, Callbacks.Valid;
      ghost var before := States();
      for i := 0 to |registered|
        invariant Valid() && registered == old(registered)
        invariant forall j :: 0 <= j < i ==> registered[j].State() == before[j].Skip(ticks)
        invariant forall j :: i <= j < |registered| ==> registered[j].State() == before[j]
      {
        assert registered[i].Object() in Objects();
        registered[i].Skip(ticks);
      }
    }

    method Skip(maximum: u64) returns (ticks: u64)
      requires Valid()
      requires forall i :: 0 <= i < |registered| ==> States()[i].Skippable(maximum)
      modifies Objects()
      ensures Valid() && registered == old(registered)
      ensures ticks == MinSkip(old(States()), maximum)
      ensures AllSkippable(old(States()), ticks) && States() == SkipAll(old(States()), ticks)
    {
      ticks := GetMaxSkip(maximum);
      MinSkipIsSkippable(States(), maximum);
      SkipEach(ticks);
    }
  }
}
