/** The receiving UART servers (user/io.c): monitorInServer and trainInServer. They differ in the
    size of the character ring, and only the monitor's echoes. */
module UartIn {
  import opened Common
  import opened Tasks
  import opened Rings

  const TASK_CAPACITY: nat := MAX_TASKS - 1

  datatype Request = Notification(tid: nat, data: nat) | Getchar(tid: nat) | Echo(tid: nat)
  datatype Reply = Empty(tid: nat) | Word(tid: nat, data: nat) | Char(tid: nat, c: byte)

  /** `capacity` is what the character ring can hold, one less than its cells. */
  datatype Kind = Kind(echoes: bool, capacity: nat)

  const MONITOR := Kind(true, 2047)
  const TRAIN := Kind(false, 511)

  datatype State = State(courier: nat, tasks: seq<byte>, chars: seq<byte>)

  function Step(kind: Kind, s: State, r: Request): State {
    match r
    case Notification(_, data) =>
      if s.tasks == [] then State(0, [], Pushed(s.chars, AsChar(data), kind.capacity))
      else State(0, s.tasks[1..], s.chars)
    case Getchar(tid) =>
      if s.chars == [] then s.(tasks := Pushed(s.tasks, AsChar(tid), TASK_CAPACITY)) else s.(chars := s.chars[1..])
    case Echo(tid) => if kind.echoes then s.(courier := tid) else s
  }

  function Replies(s: State, r: Request): seq<Reply> {
    match r
    case Notification(tid, data) =>
      [Empty(tid)]
      + (if s.courier != 0 then [Word(s.courier, data)] else [])
      + (if s.tasks != [] then [Char(s.tasks[0] as nat, AsChar(data))] else [])
    case Getchar(tid) => if s.chars == [] then [] else [Char(tid, s.chars[0])]
    case Echo(_) => []
  }

  class Server {
    const echoes: bool
    const taskBuffer: Ring<byte>
    const charBuffer: Ring<byte>
    var courierTid: nat

    ghost predicate Valid()
      reads this, taskBuffer, charBuffer
    {
      && taskBuffer.Valid() && charBuffer.Valid() && taskBuffer != charBuffer && taskBuffer.data != charBuffer.data
      && taskBuffer.size == MAX_TASKS
    }

    ghost function Now(): State
      reads this, taskBuffer, taskBuffer.data, charBuffer, charBuffer.data
      requires Valid()
    {
      State(courierTid, taskBuffer.Contents(), charBuffer.Contents())
    }

    ghost function MyKind(): Kind
      reads this, taskBuffer, charBuffer
      requires Valid()
    {
      Kind(echoes, charBuffer.size - 1)
    }

    constructor (kind: Kind)
      requires kind.capacity > 0
      ensures Valid() && MyKind() == kind && Now() == State(0, [], [])
      ensures fresh(taskBuffer) && fresh(taskBuffer.data) && fresh(charBuffer) && fresh(charBuffer.data)
    {
      var taskb, charb := new byte[MAX_TASKS], new byte[kind.capacity + 1];
      taskBuffer := new Ring(taskb);
      charBuffer := new Ring(charb);
      echoes := kind.echoes;
      courierTid := 0;
    }

    method Serve(r: Request) returns (replies: seq<Reply>)
      requires Valid()
      modifies this, taskBuffer, taskBuffer.data, charBuffer, charBuffer.data
      ensures Valid() && MyKind() == old(MyKind())
      ensures Now() == Step(MyKind(), old(Now()), r) && replies == Replies(old(Now()), r)
    {
      replies := [];
      match r
      case Notification(tid, data) =>
        replies := [Empty(tid)];
        if courierTid != 0 {
          replies := replies + [Word(courierTid, data)];
          courierTid := 0;
        }
        var c := AsChar(data);
        var idle := taskBuffer.IsEmpty();
        if idle {
          var _ := charBuffer.Push(c);
        } else {
          var popped := taskBuffer.Pop();
          replies := replies + [Char(popped.value as nat, c)];
        }
      case Getchar(tid) =>
        var none := charBuffer.IsEmpty();
        if none {
          var _ := taskBuffer.Push(AsChar(tid));
        } else {
          var ch := charBuffer.Pop();
          replies := [Char(tid, ch.value)];
        }
      case Echo(tid) =>
        if echoes { courierTid := tid; }
    }
  }

  // ----- every run -----

  /** The server with its history: the bytes received, the tasks that called Getc, and the
      answers they got, each in order. */
  datatype History = History(s: State, received: seq<byte>, askers: seq<byte>, servedTo: seq<byte>, served: seq<byte>)

  const START := History(State(0, [], []), [], [], [], [])

  /** A task is known by its index, which is not 0, and sends nothing while it waits. */
  ghost predicate Acceptable(s: State, r: Request) {
    r.Getchar? ==> 0 < r.tid < MAX_TASKS && AsChar(r.tid) !in s.tasks
  }

  /** The characters handed out by one request and the tasks they go to. */
  ghost function Chars(replies: seq<Reply>): (seq<byte>, seq<byte>) {
    if replies == [] then ([], [])
    else
      var (to, cs) := Chars(replies[1..]);
      if replies[0].Char? then ([AsChar(replies[0].tid)] + to, [replies[0].c] + cs) else (to, cs)
  }

  ghost function Advance(kind: Kind, h: History, r: Request): History {
    var (to, cs) := Chars(Replies(h.s, r));
    History(
      Step(kind, h.s, r),
      h.received + if r.Notification? then [AsChar(r.data)] else [],
      h.askers + if r.Getchar? then [AsChar(r.tid)] else [],
      h.servedTo + to,
      h.served + cs)
  }

  ghost function Run(kind: Kind, requests: seq<Request>): History {
    if requests == [] then START else Advance(kind, Run(kind, requests[..|requests| - 1]), requests[|requests| - 1])
  }

  ghost predicate Possible(kind: Kind, requests: seq<Request>) {
    requests == [] ||
    (Possible(kind, requests[..|requests| - 1]) &&
     Acceptable(Run(kind, requests[..|requests| - 1]).s, requests[|requests| - 1]))
  }

  /** No character met a full ring. */
  ghost predicate Lossless(kind: Kind, requests: seq<Request>) {
    requests == [] ||
    (Lossless(kind, requests[..|requests| - 1]) &&
     var s, r := Run(kind, requests[..|requests| - 1]).s, requests[|requests| - 1];
     (r.Notification? && s.tasks == [] ==> |s.chars| < kind.capacity))
  }

  ghost predicate Tids(s: seq<byte>) {
    NoRepeats(s) && forall i: nat :: i < |s| ==> 0 < s[i] < MAX_TASKS as byte
  }

  /** Characters and waiting tasks are never both queued; every waiting task is a different
      one; tasks are served in the order in which they asked. */
  ghost predicate Orderly(kind: Kind, h: History) {
    && (h.s.chars == [] || h.s.tasks == []) && |h.s.chars| <= kind.capacity
    && Tids(h.s.tasks) && h.askers == h.servedTo + h.s.tasks && |h.servedTo| == |h.served|
  }

  lemma {:induction false} AtMost(s: seq<byte>, n: nat)
    requires NoRepeats(s) && forall i: nat :: i < |s| ==> 0 < s[i] as nat < n
    ensures |s| < n || s == []
  {
    if s != [] {
      if i: nat :| i < |s| && s[i] as nat == n - 1 {
        var rest := s[..i] + s[i + 1..];
        forall j: nat | j < |rest| ensures 0 < rest[j] as nat < n - 1 && rest[j] == s[if j < i then j else j + 1] {}
        AtMost(rest, n - 1);
      } else {
        assert 0 < s[0];
        AtMost(s, n - 1);
      }
    }
  }

  /** What one request hands out. */
  lemma HandedOut(s: State, r: Request)
    requires Tids(s.tasks) && (r.Getchar? ==> 0 < r.tid < MAX_TASKS)
    ensures Chars(Replies(s, r)) ==
      if r.Notification? && s.tasks != [] then ([s.tasks[0]], [AsChar(r.data)])
      else if r.Getchar? && s.chars != [] then ([AsChar(r.tid)], [s.chars[0]])
      else ([], [])
  {
    if r.Notification? {
      var given := if s.tasks != [] then [Char(s.tasks[0] as nat, AsChar(r.data))] else [];
      var echo := if s.courier != 0 then [Word(s.courier, r.data)] else [];
      assert s.tasks != [] ==> given[1..] == [] && AsChar(s.tasks[0] as nat) == s.tasks[0];
      if s.tasks != [] { assert [s.tasks[0]] + [] == [s.tasks[0]] && [AsChar(r.data)] + [] == [AsChar(r.data)]; }
      assert Chars(given) == if s.tasks != [] then ([s.tasks[0]], [AsChar(r.data)]) else ([], []);
      assert (echo + given)[|echo|..] == given;
      assert Chars(echo + given) == Chars(given);
      assert Replies(s, r) == [Empty(r.tid)] + (echo + given);
      assert Replies(s, r)[1..] == echo + given;
    } else if r.Getchar? && s.chars != [] {
      assert [AsChar(r.tid)] + [] == [AsChar(r.tid)] && [s.chars[0]] + [] == [s.chars[0]];
      assert Replies(s, r)[1..] == [];
    }
  }

  lemma StepKeepsOrderly(kind: Kind, h: History, r: Request)
    requires Orderly(kind, h) && Acceptable(h.s, r) && kind.capacity > 0
    ensures Orderly(kind, Advance(kind, h, r))
    ensures r.Getchar? ==> |h.s.tasks| < TASK_CAPACITY
  {
    hide Chars, Replies;
    HandedOut(h.s, r);
    if r.Getchar? {
      AtMost(h.s.tasks + [AsChar(r.tid)], MAX_TASKS);
    }
  }

  lemma {:induction false} AlwaysOrderly(kind: Kind, requests: seq<Request>)
    requires Possible(kind, requests) && kind.capacity > 0
    ensures Orderly(kind, Run(kind, requests))
  {
    if requests != [] {
      AlwaysOrderly(kind, requests[..|requests| - 1]);
      StepKeepsOrderly(kind, Run(kind, requests[..|requests| - 1]), requests[|requests| - 1]);
    }
  }

  ghost predicate NothingLost(h: History) {
    h.received == h.served + h.s.chars
  }

  ghost predicate SomethingLost(h: History) {
    |h.received| > |h.served| + |h.s.chars|
  }

  lemma LossStep(kind: Kind, h: History, r: Request)
    requires Orderly(kind, h) && Acceptable(h.s, r) && kind.capacity > 0
    ensures NothingLost(h) && (r.Notification? && h.s.tasks == [] ==> |h.s.chars| < kind.capacity) ==>
      NothingLost(Advance(kind, h, r))
    ensures NothingLost(h) && r.Notification? && h.s.tasks == [] && |h.s.chars| >= kind.capacity ==>
      SomethingLost(Advance(kind, h, r))
    ensures SomethingLost(h) ==> SomethingLost(Advance(kind, h, r))
  {
    hide Chars, Replies;
    HandedOut(h.s, r);
  }

  /** The bytes handed out and the bytes in the ring are the bytes received, in order, exactly if
      no byte ever met a full ring. */
  lemma {:induction false} NothingLostIff(kind: Kind, requests: seq<Request>)
    requires Possible(kind, requests) && kind.capacity > 0
    ensures NothingLost(Run(kind, requests)) <==> Lossless(kind, requests)
    ensures Lossless(kind, requests) || SomethingLost(Run(kind, requests))
  {
    hide Advance;
    if requests != [] {
      var before, r := requests[..|requests| - 1], requests[|requests| - 1];
      NothingLostIff(kind, before);
      AlwaysOrderly(kind, before);
      LossStep(kind, Run(kind, before), r);
    }
  }

  /** The k-th Getc is answered with the k-th byte received, and by that byte's task. */
  lemma KthGetcGetsKthByte(kind: Kind, requests: seq<Request>, k: nat)
    requires Possible(kind, requests) && kind.capacity > 0 && Lossless(kind, requests)
    requires k < |Run(kind, requests).served|
    ensures var h := Run(kind, requests);
      && |h.servedTo| == |h.served| <= |h.askers| && |h.served| <= |h.received|
      && h.servedTo[k] == h.askers[k] && h.served[k] == h.received[k]
    ensures var h := Run(kind, requests);
      |h.served| == |h.askers| || |h.served| == |h.received|
  {
    AlwaysOrderly(kind, requests);
    NothingLostIff(kind, requests);
  }

  // ----- nobody asks -----

  function Arrivals(tid: nat, bytes: seq<byte>): seq<Request> {
    if bytes == [] then []
    else Arrivals(tid, bytes[..|bytes| - 1]) + [Notification(tid, bytes[|bytes| - 1] as nat)]
  }

  lemma {:induction false} ArrivalsAreQueued(kind: Kind, tid: nat, bytes: seq<byte>)
    ensures Run(kind, Arrivals(tid, bytes)).s == State(0, [], PushedAll([], bytes, kind.capacity))
  {
    if bytes != [] {
      var before, b := bytes[..|bytes| - 1], bytes[|bytes| - 1];
      ArrivalsAreQueued(kind, tid, before);
      assert Arrivals(tid, bytes)[..|Arrivals(tid, before)|] == Arrivals(tid, before);
      assert AsChar(b as nat) == b;
    }
  }

  /** A server keeps the bytes that nobody has asked for, 2047 from the monitor or 511 from the
      train; one more, and only that one is left. */
  lemma UnreadBytes(kind: Kind, tid: nat, bytes: seq<byte>)
    requires kind == MONITOR || kind == TRAIN
    ensures var chars := Run(kind, Arrivals(tid, bytes)).s.chars;
      && (chars == bytes <==> |bytes| <= kind.capacity)
      && (|bytes| == kind.capacity + 1 ==> chars == [bytes[kind.capacity]])
  {
    ArrivalsAreQueued(kind, tid, bytes);
    OneTooMany(bytes, kind.capacity);
  }

  // ----- the notifier and the echo -----

  /** The tasks that get an empty reply. */
  function Acknowledged(replies: seq<Reply>): seq<nat> {
    if replies == [] then []
    else
      var last := replies[|replies| - 1];
      Acknowledged(replies[..|replies| - 1]) + if last.Empty? then [last.tid] else []
  }

  /** The words that are echoed, with the couriers that get them. */
  function Echoes(replies: seq<Reply>): seq<(nat, nat)> {
    if replies == [] then []
    else
      var last := replies[|replies| - 1];
      Echoes(replies[..|replies| - 1]) + if last.Word? then [(last.tid, last.data)] else []
  }

  lemma {:induction false} RepliesSplit(a: seq<Reply>, b: seq<Reply>)
    ensures Acknowledged(a + b) == Acknowledged(a) + Acknowledged(b) && Echoes(a + b) == Echoes(a) + Echoes(b)
  {
    if b == [] {
      assert a + b == a;
    } else {
      RepliesSplit(a, b[..|b| - 1]);
      assert (a + b)[..|a + b| - 1] == a + b[..|b| - 1];
    }
  }

  lemma OneReply(r: Reply)
    ensures Acknowledged([]) == [] && Acknowledged([r]) == if r.Empty? then [r.tid] else []
    ensures Echoes([]) == [] && Echoes([r]) == if r.Word? then [(r.tid, r.data)] else []
  {
    assert [r][..0] == [];
  }

  /** Each notification is acknowledged once, to its sender, and nothing else is; a waiting courier
      gets just the word that came, and no one else gets one. */
  lemma NotifierAndCourier(s: State, r: Request)
    ensures Acknowledged(Replies(s, r)) == if r.Notification? then [r.tid] else []
    ensures Echoes(Replies(s, r)) == if r.Notification? && s.courier != 0 then [(s.courier, r.data)] else []
  {
    hide Acknowledged, Echoes;
    match r
    case Notification(tid, data) =>
      var echo := if s.courier != 0 then [Word(s.courier, data)] else [];
      var given := if s.tasks != [] then [Char(s.tasks[0] as nat, AsChar(data))] else [];
      RepliesSplit([Empty(tid)] + echo, given);
      RepliesSplit([Empty(tid)], echo);
      OneReply(Empty(tid));
      OneReply(Word(s.courier, data));
      if given != [] { OneReply(given[0]); }
    case Getchar(tid) => if s.chars != [] { OneReply(Char(tid, s.chars[0])); } else { OneReply(Empty(0)); }
    case Echo(_) => OneReply(Empty(0));
  }

  ghost function AllReplies(kind: Kind, requests: seq<Request>): seq<Reply> {
    if requests == [] then []
    else
      var before := requests[..|requests| - 1];
      AllReplies(kind, before) + Replies(Run(kind, before).s, requests[|requests| - 1])
  }

  /** The tasks that sent notifications. */
  function Notifiers(requests: seq<Request>): seq<nat> {
    if requests == [] then []
    else
      var r := requests[|requests| - 1];
      Notifiers(requests[..|requests| - 1]) + if r.Notification? then [r.tid] else []
  }

  /** The tasks that asked for an echo. */
  function Couriers(requests: seq<Request>): seq<nat> {
    if requests == [] then []
    else
      var r := requests[|requests| - 1];
      Couriers(requests[..|requests| - 1]) + if r.Echo? then [r.tid] else []
  }

  function Takers(echoes: seq<(nat, nat)>): (tids: seq<nat>)
    ensures |tids| == |echoes| && forall i: nat :: i < |tids| ==> tids[i] == echoes[i].0
  {
    seq(|echoes|, i requires 0 <= i < |echoes| => echoes[i].0)
  }

  /** A courier is no task 0, and a waiting courier sends nothing. */
  ghost predicate Patient(kind: Kind, requests: seq<Request>) {
    requests == [] ||
    (Patient(kind, requests[..|requests| - 1]) &&
     var r := requests[|requests| - 1];
     (r.Echo? ==> r.tid != 0 && Run(kind, requests[..|requests| - 1]).s.courier == 0))
  }

  /** Over every run: each notification is acknowledged once, in order; and each courier that asked
      the monitor for an echo, but the one that waits, got one word, in turn. */
  lemma {:induction false} EveryoneIsAnswered(kind: Kind, requests: seq<Request>)
    ensures Acknowledged(AllReplies(kind, requests)) == Notifiers(requests)
    ensures kind.echoes && Patient(kind, requests) ==>
      var courier := Run(kind, requests).s.courier;
      Couriers(requests) ==
        Takers(Echoes(AllReplies(kind, requests))) + if courier != 0 then [courier] else []
  {
    hide Replies, Acknowledged, Echoes, Chars;
    OneReply(Empty(0));
    if requests != [] {
      var before, r := requests[..|requests| - 1], requests[|requests| - 1];
      var s := Run(kind, before).s;
      EveryoneIsAnswered(kind, before);
      NotifierAndCourier(s, r);
      RepliesSplit(AllReplies(kind, before), Replies(s, r));
      var echoes, more := Echoes(AllReplies(kind, before)), Echoes(Replies(s, r));
      assert Takers(echoes + more) == Takers(echoes) + Takers(more);
    }
  }
}
