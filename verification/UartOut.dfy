/** The sending UART servers (user/io.c): monitorOutServer and trainOutServer. They differ in the
    size of the ring, in who is answered first, and in raw strings, which only the train takes. */
module UartOut {
  import opened Common
  import opened Tasks
  import opened Rings

  datatype Request =
    | Notification(tid: nat, addr: nat)
    | Putchar(tid: nat, data: nat)
    | Putstr(tid: nat, memory: seq<byte>)
    | Putrawstr(tid: nat, str: seq<byte>)

  /** What the server does, in order: it writes to the UART and answers its callers. */
  datatype Event = Write(addr: nat, c: byte) | Reply(tid: nat)

  /** `capacity` is what the ring can hold, one less than its cells. */
  datatype Kind = Kind(monitor: bool, capacity: nat, notifier: nat)

  function Monitor(notifier: nat): Kind {
    Kind(true, 2047, notifier)
  }

  function Train(notifier: nat): Kind {
    Kind(false, 511, notifier)
  }

  /** `sendAddr` is the UART's address while the notifier waits for something to send, else 0. */
  datatype State = State(sendAddr: nat, chars: seq<byte>)

  /** A C string ends before its first zero. */
  function UntilNul(memory: seq<byte>): seq<byte> {
    if memory == [] || memory[0] == 0 then [] else [memory[0]] + UntilNul(memory[1..])
  }

  /** It is what stands before the first zero, or everything. */
  lemma {:induction false} StringEndsAtNul(memory: seq<byte>)
    ensures var str := UntilNul(memory);
      && str <= memory && (|str| < |memory| ==> memory[|str|] == 0)
      && forall i: nat :: i < |str| ==> str[i] != 0
  {
    if memory != [] && memory[0] != 0 { StringEndsAtNul(memory[1..]); }
  }

  function IsString(kind: Kind, r: Request): bool {
    r.Putstr? || (r.Putrawstr? && !kind.monitor)
  }

  /** The characters that a request asks to send. */
  function Wanted(kind: Kind, r: Request): seq<byte> {
    match r
    case Notification(_, _) => []
    case Putchar(_, data) => [AsChar(data)]
    case Putstr(_, memory) => UntilNul(memory)
    case Putrawstr(_, str) => if kind.monitor then [] else str
  }

  function Step(kind: Kind, s: State, r: Request): State {
    match r
    case Notification(_, addr) => if s.chars == [] then s.(sendAddr := addr) else s.(chars := s.chars[1..])
    case Putchar(_, data) =>
      if s.sendAddr != 0 then s.(sendAddr := 0) else s.(chars := Pushed(s.chars, AsChar(data), kind.capacity))
    case _ =>
      var chars := PushedAll(s.chars, Wanted(kind, r), kind.capacity);
      if chars != [] && s.sendAddr != 0 && IsString(kind, r) then State(0, chars[1..]) else s.(chars := chars)
  }

  function Events(kind: Kind, s: State, r: Request): seq<Event> {
    match r
    case Notification(tid, addr) => if s.chars == [] then [] else [Write(addr, s.chars[0]), Reply(tid)]
    case Putchar(tid, data) =>
      var sent := if s.sendAddr != 0 then [Write(s.sendAddr, AsChar(data)), Reply(kind.notifier)] else [];
      if kind.monitor then sent + [Reply(tid)] else [Reply(tid)] + sent
    case _ =>
      if !IsString(kind, r) then []
      else
        var chars := PushedAll(s.chars, Wanted(kind, r), kind.capacity);
        [Reply(r.tid)] +
        if chars != [] && s.sendAddr != 0 then [Write(s.sendAddr, chars[0]), Reply(kind.notifier)] else []
  }

  class Server {
    const kind: Kind
    const charBuffer: Ring<byte>
    var sendAddr: nat

    ghost predicate Valid()
      reads this, charBuffer
    {
      charBuffer.Valid() && charBuffer.size == kind.capacity + 1
    }

    ghost function Now(): State
      reads this, charBuffer, charBuffer.data
      requires Valid()
    {
      State(sendAddr, charBuffer.Contents())
    }

    constructor (kind: Kind)
      requires kind.capacity > 0
      ensures Valid() && this.kind == kind && fresh(charBuffer) && fresh(charBuffer.data) && Now() == State(0, [])
    {
      var charb := new byte[kind.capacity + 1];
      charBuffer := new Ring(charb);
      this.kind := kind;
      sendAddr := 0;
    }

    method Serve(r: Request) returns (events: seq<Event>)
      requires Valid()
      modifies this, charBuffer, charBuffer.data
      ensures Valid() && Now() == Step(kind, old(Now()), r) && events == Events(kind, old(Now()), r)
    {
      match r
      case Notification(tid, addr) =>
        var none := charBuffer.IsEmpty();
        if none {
          sendAddr := addr;
          events := [];
        } else {
          var ch := charBuffer.Pop();
          events := [Write(addr, ch.value), Reply(tid)];
        }
      case Putchar(tid, data) =>
        events := if kind.monitor then [] else [Reply(tid)];
        if sendAddr != 0 {
          events := events + [Write(sendAddr, AsChar(data)), Reply(kind.notifier)];
          sendAddr := 0;
        } else {
          var _ := charBuffer.Push(AsChar(data));
        }
        if kind.monitor { events := events + [Reply(tid)]; }
      case _ =>
        events := HandleString(r);
    }

    method HandleString(r: Request) returns (events: seq<Event>)
      requires Valid() && (r.Putstr? || r.Putrawstr?)
      modifies this, charBuffer, charBuffer.data
      ensures Valid() && Now() == Step(kind, old(Now()), r) && events == Events(kind, old(Now()), r)
    {
      hide UntilNul, PushedAll, Wanted;
      NoneWanted(kind, r, charBuffer.Contents());
      events := [];
      if IsString(kind, r) {
        events := [Reply(r.tid)];
        var _ := charBuffer.PushAll(Wanted(kind, r));
        var none := charBuffer.IsEmpty();
        if !none && sendAddr != 0 {
          var ch := charBuffer.Pop();
          events := events + [Write(sendAddr, ch.value), Reply(kind.notifier)];
          sendAddr := 0;
        }
      }
    }
  }

  // ----- every run -----

  /** The server with its history: the characters asked for and written, the addresses notified
      and written to, and how often the notifier was answered. */
  datatype History = History(
    s: State, wanted: seq<byte>, written: seq<byte>, notified: seq<nat>, writtenTo: seq<nat>, answers: nat)

  const START := History(State(0, []), [], [], [], [], 0)

  /** The notifier waits for its answer before it sends again, and is the only one to notify. */
  ghost predicate Acceptable(kind: Kind, s: State, r: Request) {
    if r.Notification? then r.tid == kind.notifier && r.addr != 0 && s.sendAddr == 0 else r.tid != kind.notifier
  }

  function CharsOf(events: seq<Event>): seq<byte> {
    if events == [] then []
    else CharsOf(events[..|events| - 1]) + if events[|events| - 1].Write? then [events[|events| - 1].c] else []
  }

  function AddrsOf(events: seq<Event>): seq<nat> {
    if events == [] then []
    else AddrsOf(events[..|events| - 1]) + if events[|events| - 1].Write? then [events[|events| - 1].addr] else []
  }

  function AnswersTo(tid: nat, events: seq<Event>): nat {
    if events == [] then 0
    else AnswersTo(tid, events[..|events| - 1]) + if events[|events| - 1] == Reply(tid) then 1 else 0
  }

  ghost function Advance(kind: Kind, h: History, r: Request): History {
    var events := Events(kind, h.s, r);
    History(
      Step(kind, h.s, r),
      h.wanted + Wanted(kind, r),
      h.written + CharsOf(events),
      h.notified + if r.Notification? then [r.addr] else [],
      h.writtenTo + AddrsOf(events),
      h.answers + AnswersTo(kind.notifier, events))
  }

  ghost function Run(kind: Kind, requests: seq<Request>): History {
    if requests == [] then START else Advance(kind, Run(kind, requests[..|requests| - 1]), requests[|requests| - 1])
  }

  ghost predicate Possible(kind: Kind, requests: seq<Request>) {
    requests == [] ||
    (Possible(kind, requests[..|requests| - 1]) &&
     Acceptable(kind, Run(kind, requests[..|requests| - 1]).s, requests[|requests| - 1]))
  }

  /** The characters of this request fit. */
  predicate Fits(kind: Kind, s: State, r: Request) {
    (r.Putchar? && s.sendAddr != 0) || |s.chars| + |Wanted(kind, r)| <= kind.capacity
  }

  ghost predicate Lossless(kind: Kind, requests: seq<Request>) {
    requests == [] ||
    (Lossless(kind, requests[..|requests| - 1]) &&
     Fits(kind, Run(kind, requests[..|requests| - 1]).s, requests[|requests| - 1]))
  }

  /** A waiting notifier means that there is nothing to send. Every notification but the one that
      waits led to one write, to its own address, and one answer to the notifier. */
  ghost predicate Orderly(kind: Kind, h: History) {
    && (h.s.sendAddr != 0 ==> h.s.chars == []) && |h.s.chars| <= kind.capacity
    && h.notified == h.writtenTo + (if h.s.sendAddr != 0 then [h.s.sendAddr] else [])
    && h.answers == |h.writtenTo| == |h.written|
  }

  /** The events of one request, seen as a write or none. */
  lemma OneWrite(kind: Kind, s: State, r: Request)
    requires Acceptable(kind, s, r)
    ensures var events := Events(kind, s, r);
      var chars := PushedAll(s.chars, Wanted(kind, r), kind.capacity);
      if r.Notification? && s.chars != [] then
        CharsOf(events) == [s.chars[0]] && AddrsOf(events) == [r.addr] && AnswersTo(kind.notifier, events) == 1
      else if r.Putchar? && s.sendAddr != 0 then
        CharsOf(events) == [AsChar(r.data)] && AddrsOf(events) == [s.sendAddr] && AnswersTo(kind.notifier, events) == 1
      else if IsString(kind, r) && s.sendAddr != 0 && chars != [] then
        CharsOf(events) == [chars[0]] && AddrsOf(events) == [s.sendAddr] && AnswersTo(kind.notifier, events) == 1
      else CharsOf(events) == [] && AddrsOf(events) == [] && AnswersTo(kind.notifier, events) == 0
  {
    hide PushedAll, Wanted;
    var events := Events(kind, s, r);
    if |events| > 0 { EventsMore(kind.notifier, events[..|events| - 1], events[|events| - 1]); }
    if |events| > 1 { EventsMore(kind.notifier, events[..|events| - 2], events[|events| - 2]); }
    if |events| > 2 { EventsMore(kind.notifier, events[..|events| - 3], events[|events| - 3]); }
  }

  lemma EventsMore(tid: nat, events: seq<Event>, e: Event)
    ensures (events + [e])[..|events|] == events
    ensures CharsOf(events + [e]) == CharsOf(events) + if e.Write? then [e.c] else []
    ensures AddrsOf(events + [e]) == AddrsOf(events) + if e.Write? then [e.addr] else []
    ensures AnswersTo(tid, events + [e]) == AnswersTo(tid, events) + if e == Reply(tid) then 1 else 0
  {
    assert (events + [e])[..|events|] == events;
  }

  predicate IsAnswered(kind: Kind, r: Request) {
    r.Putchar? || IsString(kind, r)
  }

  lemma OneAnswer(tid: nat, e: Event)
    ensures AnswersTo(tid, []) == 0 && AnswersTo(tid, [e]) == if e == Reply(tid) then 1 else 0
  {
    EventsMore(tid, [], e);
    assert [] + [e] == [e];
  }

  lemma {:induction false} AnswersSplit(tid: nat, a: seq<Event>, b: seq<Event>)
    ensures AnswersTo(tid, a + b) == AnswersTo(tid, a) + AnswersTo(tid, b)
  {
    hide AnswersTo, CharsOf, AddrsOf;
    if b == [] {
      OneAnswer(tid, Reply(0));
      assert a + b == a;
    } else {
      var before, e := b[..|b| - 1], b[|b| - 1];
      AnswersSplit(tid, a, before);
      EventsMore(tid, a + before, e);
      EventsMore(tid, before, e);
      assert a + b == (a + before) + [e] && b == before + [e];
    }
  }

  /** A write, and the answer to the notifier, are no answer to anyone else. */
  lemma WriteAnswersNotifier(tid: nat, addr: nat, c: byte, to: nat)
    ensures AnswersTo(tid, [Write(addr, c), Reply(to)]) == if to == tid then 1 else 0
  {
    EventsMore(tid, [Write(addr, c)], Reply(to));
    OneAnswer(tid, Write(addr, c));
    assert [Write(addr, c)] + [Reply(to)] == [Write(addr, c), Reply(to)];
  }

  /** Each caller of a character or string gets its one answer at once, and no one else does but the
      notifier. */
  lemma CallerIsAnswered(kind: Kind, s: State, r: Request, tid: nat)
    requires tid != kind.notifier
    ensures var events := Events(kind, s, r);
      && (!r.Notification? ==> AnswersTo(tid, events) == if IsAnswered(kind, r) && r.tid == tid then 1 else 0)
      && (r.Notification? ==> AnswersTo(tid, events) <= 1 && (r.tid != tid ==> AnswersTo(tid, events) == 0))
  {
    hide PushedAll, Wanted, AnswersTo;
    OneAnswer(tid, Reply(r.tid));
    match r
    case Notification(to, addr) =>
      if s.chars != [] { WriteAnswersNotifier(tid, addr, s.chars[0], to); }
    case Putchar(_, data) =>
      var sent := if s.sendAddr != 0 then [Write(s.sendAddr, AsChar(data)), Reply(kind.notifier)] else [];
      WriteAnswersNotifier(tid, s.sendAddr, AsChar(data), kind.notifier);
      AnswersSplit(tid, sent, [Reply(r.tid)]);
      AnswersSplit(tid, [Reply(r.tid)], sent);
    case _ =>
      var chars := PushedAll(s.chars, Wanted(kind, r), kind.capacity);
      if IsString(kind, r) && chars != [] && s.sendAddr != 0 {
        WriteAnswersNotifier(tid, s.sendAddr, chars[0], kind.notifier);
        AnswersSplit(tid, [Reply(r.tid)], [Write(s.sendAddr, chars[0]), Reply(kind.notifier)]);
      } else {
        AnswersSplit(tid, [Reply(r.tid)], []);
      }
  }

  /** What is written is written before the notifier is answered. The monitor answers the caller of a
      character last, all others are answered first. */
  lemma AnswerOrder(kind: Kind, s: State, r: Request)
    ensures var events := Events(kind, s, r);
      && (forall i: nat :: i < |events| && events[i].Write? ==>
            i + 1 < |events| && events[i + 1] == Reply(if r.Notification? then r.tid else kind.notifier))
      && (IsAnswered(kind, r) ==>
            events != [] && events[if kind.monitor && r.Putchar? then |events| - 1 else 0] == Reply(r.tid))
  {
    hide PushedAll, Wanted;
  }

  /** How often a task was answered in a run. */
  ghost function Answered(kind: Kind, requests: seq<Request>, tid: nat): nat {
    if requests == [] then 0
    else
      var before, r := requests[..|requests| - 1], requests[|requests| - 1];
      Answered(kind, before, tid) + AnswersTo(tid, Events(kind, Run(kind, before).s, r))
  }

  /** How many characters and strings a task asked to send. */
  function Asked(kind: Kind, requests: seq<Request>, tid: nat): nat {
    if requests == [] then 0
    else
      var r := requests[|requests| - 1];
      Asked(kind, requests[..|requests| - 1], tid) + if IsAnswered(kind, r) && r.tid == tid then 1 else 0
  }

  /** Over every run each task but the notifier has as many answers as it has sent requests. */
  lemma {:induction false} EveryCallerIsAnswered(kind: Kind, requests: seq<Request>, tid: nat)
    requires tid != kind.notifier && Possible(kind, requests)
    ensures Answered(kind, requests, tid) == Asked(kind, requests, tid)
  {
    hide Events, AnswersTo, Advance;
    if requests != [] {
      var before := requests[..|requests| - 1];
      EveryCallerIsAnswered(kind, before, tid);
      CallerIsAnswered(kind, Run(kind, before).s, requests[|requests| - 1], tid);
    }
  }

  lemma StepKeepsOrderly(kind: Kind, h: History, r: Request)
    requires Orderly(kind, h) && Acceptable(kind, h.s, r) && kind.capacity > 0
    ensures Orderly(kind, Advance(kind, h, r))
  {
    hide Events, CharsOf, AddrsOf, AnswersTo, PushedAll, Wanted;
    OneWrite(kind, h.s, r);
    Rings.NothingLostIff(h.s.chars, Wanted(kind, r), kind.capacity);
    NoneWanted(kind, r, h.s.chars);
  }

  lemma NoneWanted(kind: Kind, r: Request, s: seq<byte>)
    ensures r.Putchar? || r.Notification? || IsString(kind, r) || Wanted(kind, r) == []
    ensures PushedAll(s, [], kind.capacity) == s
  {
  }

  lemma {:induction false} AlwaysOrderly(kind: Kind, requests: seq<Request>)
    requires Possible(kind, requests) && kind.capacity > 0
    ensures Orderly(kind, Run(kind, requests))
  {
    hide Advance, Acceptable;
    if requests != [] {
      AlwaysOrderly(kind, requests[..|requests| - 1]);
      StepKeepsOrderly(kind, Run(kind, requests[..|requests| - 1]), requests[|requests| - 1]);
    }
  }

  ghost predicate NothingLost(h: History) {
    h.wanted == h.written + h.s.chars
  }

  ghost predicate SomethingLost(h: History) {
    |h.wanted| > |h.written| + |h.s.chars|
  }

  lemma LossStep(kind: Kind, h: History, r: Request)
    requires Orderly(kind, h) && Acceptable(kind, h.s, r) && kind.capacity > 0
    ensures NothingLost(h) && Fits(kind, h.s, r) ==> NothingLost(Advance(kind, h, r))
    ensures NothingLost(h) && !Fits(kind, h.s, r) ==> SomethingLost(Advance(kind, h, r))
    ensures SomethingLost(h) ==> SomethingLost(Advance(kind, h, r))
  {
    hide Events, CharsOf, AddrsOf, AnswersTo, PushedAll;
    OneWrite(kind, h.s, r);
    Rings.NothingLostIff(h.s.chars, Wanted(kind, r), kind.capacity);
    NoneWanted(kind, r, h.s.chars);
  }

  /** The characters written, then those in the ring, are the characters asked for, in order,
      exactly if every request fitted in the ring. */
  lemma {:induction false} NothingLostIff(kind: Kind, requests: seq<Request>)
    requires Possible(kind, requests) && kind.capacity > 0
    ensures NothingLost(Run(kind, requests)) <==> Lossless(kind, requests)
    ensures Lossless(kind, requests) || SomethingLost(Run(kind, requests))
  {
    hide Advance, Acceptable, Fits;
    if requests != [] {
      var before, r := requests[..|requests| - 1], requests[|requests| - 1];
      NothingLostIff(kind, before);
      AlwaysOrderly(kind, before);
      LossStep(kind, Run(kind, before), r);
    }
  }

  /** The k-th character written is the k-th asked for, and goes to the address of the k-th
      notification. Nothing is left to send while the notifier waits. */
  lemma KthWriteAnswersKthNotification(kind: Kind, requests: seq<Request>, k: nat)
    requires Possible(kind, requests) && kind.capacity > 0 && Lossless(kind, requests)
    requires k < |Run(kind, requests).written|
    ensures var h := Run(kind, requests);
      && |h.written| == |h.writtenTo| == h.answers <= |h.notified| <= h.answers + 1 && |h.written| <= |h.wanted|
      && h.written[k] == h.wanted[k] && h.writtenTo[k] == h.notified[k]
      && (|h.notified| == h.answers + 1 ==> h.written == h.wanted)
  {
    AlwaysOrderly(kind, requests);
    NothingLostIff(kind, requests);
  }

  /** While the UART is busy and the ring empty, a string of up to 2047 characters for the monitor,
      or 511 for the train, waits whole; of one that is longer by one, only the last does. */
  lemma OneString(kind: Kind, tid: nat, memory: seq<byte>)
    requires exists n: nat :: kind == Monitor(n) || kind == Train(n)
    ensures var str, chars := UntilNul(memory), Step(kind, State(0, []), Putstr(tid, memory)).chars;
      && (chars == str <==> |str| <= kind.capacity)
      && (|str| == kind.capacity + 1 ==> chars == [str[kind.capacity]])
  {
    var str := UntilNul(memory);
    OneTooMany(str, kind.capacity);
  }
}
