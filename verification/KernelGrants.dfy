/** The transmit handshake inside the kernel: which turns of a run let a byte out. */
module KernelGrants {
  import opened Tasks
  import opened Handshake
  import opened KernelState
  import opened KernelInvariant

  /** The turn hands a UART1 signal to the handshake. */
  predicate Signalled(s: State, trap: Trap) {
    && !s.halted && !Idle(s)
    && trap.Interrupt? && !trap.irq.timer && trap.irq.uart1 && (trap.irq.modem || trap.irq.transmit)
  }

  function SignalOf(irq: Irq): Signal {
    if irq.modem then Modem(irq.cts, irq.dcts) else Transmit
  }

  /** The UART1 signals that reach handleInterrupt during a run. */
  ghost function Signals(empty: State, traps: seq<Trap>): seq<Signal>
    requires IsEmpty(empty)
  {
    if traps == [] then []
    else
      var before := traps[..|traps| - 1];
      var trap := traps[|traps| - 1];
      Signals(empty, before) + if Signalled(Run(empty, before), trap) then [SignalOf(trap.irq)] else []
  }

  /** The kernel's two flags are those of the handshake run on the signals it saw. */
  lemma {:induction false} FlagsFollowSignals(empty: State, traps: seq<Trap>)
    requires IsEmpty(empty)
    ensures Run(empty, traps).uart1 == Flags(START, Signals(empty, traps))
  {
    hide Inv, Linked, Step, IsEmpty, Handle;
    if traps != [] {
      var before := traps[..|traps| - 1];
      FlagsFollowSignals(empty, before);
      var signals := Signals(empty, traps);
      if signals != Signals(empty, before) {
        assert signals[..|signals| - 1] == Signals(empty, before);
      }
      StepUart1(Run(empty, before), traps[|traps| - 1]);
    } else {
      BootUart1(empty);
    }
  }

  lemma BootUart1(empty: State)
    requires IsEmpty(empty)
    ensures Boot(empty).uart1 == START
  {
  }

  lemma RequestKeepsFlags(s: State, t: nat, request: Request)
    requires Linked(s) && IsTid(t)
    ensures HandleRequest(s, t, request).uart1 == s.uart1
  {
  }

  lemma InterruptFlags(s: State, irq: Irq)
    requires Linked(s)
    ensures HandleInterrupt(s, irq).uart1 ==
      if !irq.timer && irq.uart1 && (irq.modem || irq.transmit) then Handle(s.uart1, SignalOf(irq)).0 else s.uart1
  {
  }

  lemma StepUart1(s: State, trap: Trap)
    requires Settled(s)
    ensures Linked(s)
    ensures Step(s, trap).uart1 ==
      if Signalled(s, trap) then Handle(s.uart1, SignalOf(trap.irq)).0 else s.uart1
  {
    hide Inv, HandleRequest, HandleInterrupt;
    InvLinked(s);
    if !s.halted && !Idle(s) {
      ScheduleHolding(s);
      InvLinked(Schedule(s));
      match trap
      case Interrupt(irq) => InterruptFlags(Schedule(s), irq);
      case Syscall(request) => RequestKeepsFlags(Schedule(s), NextTask(s), request);
    }
  }

  // ----- the turns that let a byte out -----

  /** The turn grants a transmission. */
  predicate TurnGrants(s: State, trap: Trap) {
    Signalled(s, trap) && Handle(s.uart1, SignalOf(trap.irq)).1
  }

  /** A turn grants exactly if it adds a signal, and that signal grants in the handshake. */
  lemma TurnGrantsIff(empty: State, traps: seq<Trap>, trap: Trap)
    requires IsEmpty(empty)
    ensures var before, signals := Signals(empty, traps), Signals(empty, traps + [trap]);
      TurnGrants(Run(empty, traps), trap) <==> |signals| > |before| && Grants(signals, |before|)
  {
    hide Settled, Linked, Step, IsEmpty, Handle, Flags;
    assert (traps + [trap])[..|traps|] == traps;
    FlagsFollowSignals(empty, traps);
    if Signalled(Run(empty, traps), trap) {
      assert Signals(empty, traps + [trap])[..|Signals(empty, traps)|] == Signals(empty, traps);
    }
  }

  /** A longer run sees more signals, after the same ones. */
  lemma {:induction false} SignalsGrow(empty: State, traps: seq<Trap>, i: nat)
    requires IsEmpty(empty) && i <= |traps|
    ensures var early, late := Signals(empty, traps[..i]), Signals(empty, traps);
      |early| <= |late| && late[..|early|] == early
  {
    hide Run, Settled, Linked, Signalled, IsEmpty;
    if i == |traps| {
      assert traps[..i] == traps;
    } else {
      assert traps[..|traps| - 1][..i] == traps[..i];
      SignalsGrow(empty, traps[..|traps| - 1], i);
    }
  }

  /** The turn, from turn i on and before turn j, that brought signal k. */
  lemma {:induction false} TurnOfSignal(empty: State, traps: seq<Trap>, i: nat, j: nat, k: nat) returns (m: nat)
    requires IsEmpty(empty) && i <= j <= |traps|
    requires |Signals(empty, traps[..i])| <= k < |Signals(empty, traps[..j])|
    ensures i <= m < j && Signalled(Run(empty, traps[..m]), traps[m])
    ensures SignalOf(traps[m].irq) == Signals(empty, traps[..j])[k]
  {
    hide Run, Settled, Linked, Signalled, IsEmpty, SignalOf;
    assert traps[..j][..j - 1] == traps[..j - 1];
    if k < |Signals(empty, traps[..j - 1])| {
      m := TurnOfSignal(empty, traps, i, j - 1, k);
    } else {
      m := j - 1;
    }
  }

  /** Over every run: between two turns that each let a byte out there is a turn with a
      clear-to-send edge and a turn with a transmit interrupt. */
  lemma GrantTurnsAreSpaced(empty: State, traps: seq<Trap>, i: nat, j: nat) returns (edge: nat, ready: nat)
    requires IsEmpty(empty) && i < j < |traps|
    requires TurnGrants(Run(empty, traps[..i]), traps[i]) && TurnGrants(Run(empty, traps[..j]), traps[j])
    ensures i < edge <= j && Signalled(Run(empty, traps[..edge]), traps[edge])
    ensures i < ready <= j && Signalled(Run(empty, traps[..ready]), traps[ready])
    ensures Edge(SignalOf(traps[edge].irq)) && SignalOf(traps[ready].irq) == Transmit
  {
    hide Run, Settled, Linked, Signalled, IsEmpty, SignalOf, TurnGrants, Signals, Edge, Grants;
    var g := GrantAt(empty, traps, i, j + 1);
    var h := GrantAt(empty, traps, j, j + 1);
    assert traps[..j][..i + 1] == traps[..i + 1];
    SignalsGrow(empty, traps[..j], i + 1);
    var e, r := BothSignals(Signals(empty, traps[..j + 1]), g, h);
    edge := TurnOfSignal(empty, traps, i + 1, j + 1, e);
    ready := TurnOfSignal(empty, traps, i + 1, j + 1, r);
  }

  lemma BothSignals(signals: seq<Signal>, g: nat, h: nat) returns (edge: nat, ready: nat)
    requires g < h < |signals| && Grants(signals, g) && Grants(signals, h)
    ensures g < edge <= h && Edge(signals[edge])
    ensures g < ready <= h && signals[ready] == Transmit
  {
    GrantsNeedBothSignals(signals, g, h);
    edge :| g < edge <= h && Edge(signals[edge]);
    ready :| g < ready <= h && signals[ready] == Transmit;
  }

  /** The place of a granting turn's signal among the signals of the first n turns. */
  lemma GrantAt(empty: State, traps: seq<Trap>, i: nat, n: nat) returns (g: nat)
    requires IsEmpty(empty) && i < n <= |traps| && TurnGrants(Run(empty, traps[..i]), traps[i])
    ensures g == |Signals(empty, traps[..i])| && |Signals(empty, traps[..i + 1])| == g + 1
    ensures g < |Signals(empty, traps[..n])| && Grants(Signals(empty, traps[..n]), g)
  {
    hide Run, Settled, Linked, IsEmpty, SignalOf, Flags, Handle;
    g := |Signals(empty, traps[..i])|;
    assert traps[..i] + [traps[i]] == traps[..i + 1];
    assert traps[..i + 1][..i] == traps[..i];
    TurnGrantsIff(empty, traps[..i], traps[i]);
    assert traps[..n][..i + 1] == traps[..i + 1];
    SignalsGrow(empty, traps[..n], i + 1);
    var early, signals := Signals(empty, traps[..i + 1]), Signals(empty, traps[..n]);
    assert early[..g] == signals[..g] && early[g] == signals[..g + 1][g];
  }

  // ----- whom an interrupt wakes -----

  /** The interrupt is one for this event; the causes are tested in order. */
  predicate Raises(uart1: Uart1, irq: Irq, event: nat) {
    match event
    case 0 => irq.timer
    case 1 => !irq.timer && irq.uart1 && !irq.modem && !irq.transmit && irq.receive
    case 2 => !irq.timer && irq.uart1 && (irq.modem || irq.transmit) && Handle(uart1, SignalOf(irq)).1
    case 3 => !irq.timer && !irq.uart1 && irq.uart2Receive
    case 4 => !irq.timer && !irq.uart1 && !irq.uart2Receive && irq.uart2Transmit
    case _ => false
  }

  /** What the task that waits for the event is given. */
  function Gives(irq: Irq, event: nat): int {
    match event
    case 0 => 0
    case 2 => UART1_DATA
    case 4 => UART2_DATA
    case _ => irq.data
  }

  lemma RequestKeepsEvents(s: State, t: nat, request: Request)
    requires Linked(s) && IsTid(t) && !request.AwaitEvent?
    ensures HandleRequest(s, t, request).events == s.events
  {
  }

  lemma RequestKeepsWaiter(s: State, t: nat, request: Request, event: nat)
    requires Linked(s) && IsTid(t) && event < NUM_EVENTS && s.events[event] != 0
    ensures var events := HandleRequest(s, t, request).events; |events| == NUM_EVENTS && events[event] != 0
  {
    hide HandleSend, HandleReceive, HandleReply, HandleCreate, HandleSpawn;
    if !request.AwaitEvent? { RequestKeepsEvents(s, t, request); }
  }

  /** The task that waits for the event has been woken with this result. */
  ghost predicate Woken(s: State, s': State, event: nat, ret: int)
    requires Linked(s) && event < NUM_EVENTS
  {
    var t := s.events[event];
    && Shape(s') && t < MAX_TASKS && s'.events[event] == 0 && s'.place[t] == InReady && s'.tasks[t].ret == ret
    && s'.halted == s.halted
  }

  lemma FireWakes(s: State, fired: nat, ret: int, event: nat)
    requires Linked(s) && fired < NUM_EVENTS && event < NUM_EVENTS && s.events[event] != 0
    ensures fired == event ==> Woken(s, Fire(s, fired, ret), event, ret)
    ensures fired != event ==> Shape(Fire(s, fired, ret)) && Fire(s, fired, ret).events[event] == s.events[event]
  {
    hide PriorityOf;
  }

  lemma Uart1Wakes(s: State, irq: Irq, event: nat)
    requires Linked(s) && event < NUM_EVENTS && s.events[event] != 0 && !irq.timer && irq.uart1
    ensures var s' := HandleUart1(s, irq);
      && Shape(s') && (Raises(s.uart1, irq, event) ==> Woken(s, s', event, Gives(irq, event)))
      && (!Raises(s.uart1, irq, event) ==> s'.events[event] != 0)
  {
    hide Handle, Fire;
    var uart1 := Handle(s.uart1, SignalOf(irq)).0;
    FireWakes(s.(uart1 := uart1), UART1_XMIT_EVENT, UART1_DATA, event);
    FireWakes(s, UART1_RECV_EVENT, irq.data, event);
  }

  lemma InterruptWakes(s: State, irq: Irq, event: nat)
    requires Linked(s) && event < NUM_EVENTS && s.events[event] != 0
    ensures var s' := HandleInterrupt(s, irq);
      && Shape(s') && (Raises(s.uart1, irq, event) ==> Woken(s, s', event, Gives(irq, event)))
      && (!Raises(s.uart1, irq, event) ==> s'.events[event] != 0)
  {
    hide Handle, Fire, HandleUart1;
    FireWakes(s, TIMER_EVENT, 0, event);
    FireWakes(s, UART2_RECV_EVENT, irq.data, event);
    FireWakes(s, UART2_XMIT_EVENT, UART2_DATA, event);
    if !irq.timer && irq.uart1 { Uart1Wakes(s, irq, event); }
  }

  /** A task that waits for an event is woken exactly by a turn with an interrupt for it, and gets
      what belongs to the event; one that waits to write to UART1, only by a turn that grants. */
  lemma WaiterWokenIff(s: State, trap: Trap, event: nat)
    requires Settled(s) && Shape(s) && event < NUM_EVENTS && s.events[event] != 0
    ensures Linked(s)
    ensures var s', t := Step(s, trap), s.events[event];
      var raised := !s.halted && !Idle(s) && trap.Interrupt? && Raises(s.uart1, trap.irq, event);
      && Shape(s') && IsTid(t)
      && (s'.events[event] == 0 <==> raised)
      && (raised ==> s'.place[t] == InReady && s'.tasks[t].ret == Gives(trap.irq, event))
      && (event == UART1_XMIT_EVENT ==> (raised <==> TurnGrants(s, trap)))
  {
    hide Inv, HandleRequest, HandleInterrupt, Handle;
    InvLinked(s);
    StepInv(s, trap);
    InvLinked(Step(s, trap));
    if !s.halted && !Idle(s) {
      ScheduleHolding(s);
      InvLinked(Schedule(s));
      assert Schedule(s).events == s.events && Schedule(s).uart1 == s.uart1;
      match trap
      case Interrupt(irq) => InterruptWakes(Schedule(s), irq, event);
      case Syscall(request) => RequestKeepsWaiter(Schedule(s), NextTask(s), request, event);
    }
  }
}
