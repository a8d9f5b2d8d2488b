/** The UART1 transmit handshake of handleInterrupt (kernel/interrupts.c): a byte may be
    sent only after a clear-to-send edge and a transmit-ready interrupt. */
module Handshake {

  /** The static variables ctsOn and xmitRdy; both start as -1, which C takes for true. */
  datatype Uart1 = Uart1(ctsOn: int, xmitRdy: int)

  const START := Uart1(-1, -1)

  datatype Signal = Modem(cts: bool, dcts: bool) | Transmit | Other

  /** One UART1 interrupt: the new flags, and whether a byte may now be sent. */
  function Handle(u: Uart1, signal: Signal): (Uart1, bool) {
    match signal
    case Modem(cts, dcts) =>
      var ctsOn := if cts && dcts then 1 else 0;
      if ctsOn != 0 && u.xmitRdy != 0 then (Uart1(0, 0), true) else (u.(ctsOn := ctsOn), false)
    case Transmit =>
      if u.ctsOn == 1 then (Uart1(0, 0), true) else (u.(xmitRdy := 1), false)
    case Other => (u, false)
  }

  function Flags(u: Uart1, signals: seq<Signal>): Uart1 {
    if signals == [] then u else Handle(Flags(u, signals[..|signals| - 1]), signals[|signals| - 1]).0
  }

  /** Signal i is the one that lets a byte out. */
  predicate Grants(signals: seq<Signal>, i: nat)
    requires i < |signals|
  {
    Handle(Flags(START, signals[..i]), signals[i]).1
  }

  predicate Edge(signal: Signal) {
    signal == Modem(true, true)
  }

  /** The flags never claim more than what was seen since signal `from`. */
  ghost predicate Justified(signals: seq<Signal>, from: nat, i: nat)
    requires from <= i <= |signals|
  {
    var u := Flags(START, signals[..i]);
    && (u.ctsOn == 0 || u.ctsOn == 1) && (u.xmitRdy == 0 || u.xmitRdy == 1)
    && (u.ctsOn == 1 ==> exists k :: from <= k < i && Edge(signals[k]))
    && (u.xmitRdy == 1 ==> exists k :: from <= k < i && signals[k].Transmit?)
  }

  lemma FlagsStep(signals: seq<Signal>, i: nat)
    requires i < |signals|
    ensures Flags(START, signals[..i + 1]) == Handle(Flags(START, signals[..i]), signals[i]).0
  {
    assert signals[..i + 1][..i] == signals[..i];
  }

  lemma {:induction false} FlagsAreJustified(signals: seq<Signal>, g: nat, i: nat)
    requires g < i <= |signals| && Grants(signals, g)
    ensures Justified(signals, g + 1, i)
  {
    FlagsStep(signals, i - 1);
    if i - 1 > g {
      FlagsAreJustified(signals, g, i - 1);
    }
  }

  /** Between two grants there is a clear-to-send edge and a transmit interrupt; the second
      grant is itself the later of the two. */
  lemma GrantsNeedBothSignals(signals: seq<Signal>, g: nat, h: nat)
    requires g < h < |signals| && Grants(signals, g) && Grants(signals, h)
    ensures exists k :: g < k <= h && Edge(signals[k])
    ensures exists k :: g < k <= h && signals[k].Transmit?
  {
    FlagsAreJustified(signals, g, h);
    assert Edge(signals[h]) || signals[h].Transmit?;
  }

  /** Even the first grant needs a clear-to-send edge. */
  lemma FirstGrantNeedsEdge(signals: seq<Signal>, h: nat)
    requires h < |signals| && Grants(signals, h)
    ensures exists k :: 0 <= k <= h && Edge(signals[k])
  {
    EdgeBehindCts(signals, h);
    assert Edge(signals[h]) || signals[h].Transmit?;
  }

  lemma {:induction false} EdgeBehindCts(signals: seq<Signal>, i: nat)
    requires i <= |signals|
    ensures Flags(START, signals[..i]).ctsOn == 1 ==> exists k :: 0 <= k < i && Edge(signals[k])
  {
    if i > 0 {
      FlagsStep(signals, i - 1);
      EdgeBehindCts(signals, i - 1);
    }
  }

  /** As long as no edge was seen the transmitter counts as ready, and nothing is granted. */
  lemma {:induction false} ReadyBeforeFirstEdge(signals: seq<Signal>, i: nat)
    requires i <= |signals| && forall k: nat :: k < i ==> !Edge(signals[k])
    ensures var u := Flags(START, signals[..i]); u.ctsOn != 1 && u.xmitRdy != 0
    ensures forall k: nat :: k < i ==> !Grants(signals, k)
  {
    if i > 0 {
      FlagsStep(signals, i - 1);
      ReadyBeforeFirstEdge(signals, i - 1);
    }
  }

  /** The first grant is exactly the first edge, whatever transmit interrupts came before it. */
  lemma FirstGrantIsFirstEdge(signals: seq<Signal>, h: nat)
    requires h < |signals| && forall k: nat :: k < h ==> !Edge(signals[k])
    ensures Grants(signals, h) <==> Edge(signals[h])
    ensures forall k: nat :: k < h ==> !Grants(signals, k)
  {
    ReadyBeforeFirstEdge(signals, h);
  }

  /** The transmit interrupt is not needed the first time: xmitRdy starts out true. */
  lemma FirstGrantWithoutTransmit()
    ensures Grants([Modem(true, true)], 0)
  {
    FirstGrantIsFirstEdge([Modem(true, true)], 0);
  }

  // ----- exactly when a byte may be sent -----

  ghost predicate EdgeHolds(signals: seq<Signal>, from: nat, i: nat)
    requires i <= |signals|
  {
    exists k: nat :: from <= k < i && Edge(signals[k]) && forall m: nat :: k < m < i ==> !signals[m].Modem?
  }

  ghost predicate TransmitSeen(signals: seq<Signal>, from: nat, i: nat)
    requires i <= |signals|
  {
    exists k: nat :: from <= k < i && signals[k].Transmit?
  }

  /** Since grant g, and up to the next one, the flags say exactly that the last modem signal was an
      edge, and that there was a transmit interrupt. */
  lemma {:induction false} FlagsSayIff(signals: seq<Signal>, g: nat, i: nat)
    requires g < i <= |signals| && Grants(signals, g) && forall k: nat :: g < k < i ==> !Grants(signals, k)
    ensures var u := Flags(START, signals[..i]);
      && (u.ctsOn == 0 || u.ctsOn == 1) && (u.xmitRdy == 0 || u.xmitRdy == 1)
      && (u.ctsOn == 1 <==> EdgeHolds(signals, g + 1, i)) && (u.xmitRdy == 1 <==> TransmitSeen(signals, g + 1, i))
  {
    FlagsStep(signals, i - 1);
    if i - 1 > g {
      FlagsSayIff(signals, g, i - 1);
      assert !Grants(signals, i - 1);
      LastSignal(signals, g + 1, i);
    }
  }

  lemma LastSignal(signals: seq<Signal>, from: nat, i: nat)
    requires from < i <= |signals|
    ensures EdgeHolds(signals, from, i) <==>
      Edge(signals[i - 1]) || (!signals[i - 1].Modem? && EdgeHolds(signals, from, i - 1))
    ensures TransmitSeen(signals, from, i) <==> signals[i - 1].Transmit? || TransmitSeen(signals, from, i - 1)
  {
    if Edge(signals[i - 1]) { assert EdgeHolds(signals, from, i); }
    if signals[i - 1].Transmit? { assert TransmitSeen(signals, from, i); }
  }

  /** After a grant the next one comes exactly with an edge that follows a transmit interrupt, or
      with a transmit interrupt while the last modem signal since the grant was an edge. */
  lemma NextGrantIff(signals: seq<Signal>, g: nat, h: nat)
    requires g < h < |signals| && Grants(signals, g) && forall k: nat :: g < k < h ==> !Grants(signals, k)
    ensures Grants(signals, h) <==>
      (Edge(signals[h]) && TransmitSeen(signals, g + 1, h))
      || (signals[h].Transmit? && EdgeHolds(signals, g + 1, h))
  {
    FlagsSayIff(signals, g, h);
  }
}
