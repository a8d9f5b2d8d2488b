/** The sensor server (user/sensor.c): it attributes sensor hits to engineers and hands them to
    the engineer courier. */
module SensorServer {
  import opened Common
  import opened Bits
  import opened Rings
  import HandOff

  const MAX_NUM_ENGINEER: nat := 2
  const CAPACITY: nat := 63
  const SENSOR_TRIGGER: nat := 40

  datatype Attribution = Attribution(courierTid: int, engineerTid: int, prevTime: int, primary: int, secondary: int)
  datatype Delivery = Delivery(tid: int, kind: nat, nodeIndex: int, timestamp: int)

  const NOBODY := Attribution(-1, -1, -1, -1, -1)

  datatype Request =
    | NewSensor(tid: nat, data: nat, seqNo: nat, time: int)
    | InitialClaim(tid: nat, index: int, engineerTid: int)
    | ClaimSensor(tid: nat, primary: int, secondary: int)
    | RequestSensor(tid: nat)

  datatype Reply = Empty(tid: nat) | Delivered(tid: nat, delivery: Delivery)

  // ----- whose sensor it is -----

  /** The claims found so far; index -1 for none. */
  datatype Best = Best(primary: int, primaryTime: int, secondary: int, secondaryTime: int)

  function Better(b: Best, a: Attribution, i: nat, sensor: int): Best {
    if a.primary == sensor then
      if b.primaryTime == -1 || a.prevTime < b.primaryTime || a.prevTime == -1
      then b.(primary := i, primaryTime := a.prevTime) else b
    else if a.secondary == sensor && (b.secondaryTime == -1 || a.prevTime < b.secondaryTime)
    then b.(secondary := i, secondaryTime := a.prevTime) else b
  }

  function Scan(attrs: seq<Attribution>, sensor: int): Best {
    if attrs == [] then Best(-1, -1, -1, -1)
    else
      var last := |attrs| - 1;
      Better(Scan(attrs[..last], sensor), attrs[last], last, sensor)
  }

  function Chosen(attrs: seq<Attribution>, sensor: int): int {
    var b := Scan(attrs, sensor);
    if b.primary >= 0 then b.primary else b.secondary
  }

  predicate Claims(a: Attribution, sensor: int) {
    a.primary == sensor || a.secondary == sensor
  }

  lemma {:induction false} ScanFinds(attrs: seq<Attribution>, sensor: int)
    ensures var b := Scan(attrs, sensor);
      && -1 <= b.primary < |attrs| && -1 <= b.secondary < |attrs|
      && (b.primary == -1 <==> forall i: nat :: i < |attrs| ==> attrs[i].primary != sensor)
      && (b.primary >= 0 ==> attrs[b.primary].primary == sensor && attrs[b.primary].prevTime == b.primaryTime)
      && (b.primary == -1 ==> b.primaryTime == -1)
      && (b.secondary == -1 <==>
            forall i: nat :: i < |attrs| && attrs[i].secondary == sensor ==> attrs[i].primary == sensor)
      && (b.secondary >= 0 ==>
            attrs[b.secondary].secondary == sensor && attrs[b.secondary].primary != sensor
            && attrs[b.secondary].prevTime == b.secondaryTime)
      && (b.secondary == -1 ==> b.secondaryTime == -1)
  {
    if attrs != [] {
      var rest := attrs[..|attrs| - 1];
      ScanFinds(rest, sensor);
      assert forall i: nat :: i < |rest| ==> attrs[i] == rest[i];
    }
  }

  /** A hit is attributed exactly if some engineer claims the sensor, and a primary claim goes
      before every secondary one. */
  lemma ChosenClaims(attrs: seq<Attribution>, sensor: int)
    ensures var i := Chosen(attrs, sensor);
      && -1 <= i < |attrs|
      && (i == -1 <==> forall j: nat :: j < |attrs| ==> !Claims(attrs[j], sensor))
      && (i >= 0 ==> Claims(attrs[i], sensor))
      && (i >= 0 && attrs[i].primary != sensor ==> forall j: nat :: j < |attrs| ==> attrs[j].primary != sensor)
  {
    ScanFinds(attrs, sensor);
  }

  /** Of two primary claims the one with the earlier hit wins, a claim without a hit (-1) counting
      as earliest, exactly unless the first alone has no hit yet. */
  lemma EarlierWinsIff(a: Attribution, b: Attribution, sensor: int)
    requires a.primary == sensor && b.primary == sensor && a.prevTime >= -1 && b.prevTime >= -1
    ensures var i := Chosen([a, b], sensor);
      0 <= i < 2 && ([a, b][i].prevTime <= a.prevTime && [a, b][i].prevTime <= b.prevTime <==>
                       !(a.prevTime == -1 && b.prevTime != -1))
  {
    assert [a, b][..1] == [a] && [a][..0] == [];
    assert Scan([a], sensor) == Best(0, a.prevTime, -1, -1);
  }

  /** The same exception among two secondary claims, where no primary claim is: the earlier hit wins
      exactly unless the first alone has no hit yet. */
  lemma EarlierSecondaryWinsIff(a: Attribution, b: Attribution, sensor: int)
    requires a.primary != sensor && b.primary != sensor && a.secondary == sensor && b.secondary == sensor
    requires a.prevTime >= -1 && b.prevTime >= -1
    ensures var i := Chosen([a, b], sensor);
      0 <= i < 2 && ([a, b][i].prevTime <= a.prevTime && [a, b][i].prevTime <= b.prevTime <==>
                       !(a.prevTime == -1 && b.prevTime != -1))
  {
    assert [a, b][..1] == [a] && [a][..0] == [];
    assert Scan([a], sensor) == Best(-1, -1, 0, a.prevTime);
  }

  /** With one primary and one secondary claim the primary one wins, whatever the times. */
  lemma PrimaryWins(a: Attribution, b: Attribution, sensor: int)
    requires a.primary == sensor <==> b.primary != sensor
    ensures Chosen([a, b], sensor) == if a.primary == sensor then 0 else 1
  {
    assert [a, b][..1] == [a] && [a][..0] == [];
    ScanFinds([a, b], sensor);
  }

  // ----- what one sensor byte delivers -----

  function SensorIndex(group: int, offset: int): int {
    16 * group + offset - 1
  }

  /** The sensor of bit i, the lowest bit first; odd bytes hold the upper half of a group. */
  function SensorAt(seqNo: nat, i: nat): int {
    SensorIndex(seqNo / 2, 8 - i + if seqNo % 2 == 0 then 0 else 8)
  }

  /** Sensors are numbered in the order in which their bits come from the track: byte by byte, and
      in each byte from the highest bit down. */
  lemma SensorNumbers(seqNo: nat, i: nat)
    requires i < 8
    ensures SensorAt(seqNo, i) == 8 * seqNo + 7 - i
    ensures SensorAt(0, 7) == 0
    ensures i < 7 ==> SensorAt(seqNo, i) == SensorAt(seqNo, i + 1) + 1
    ensures SensorAt(seqNo + 1, 7) == SensorAt(seqNo, 0) + 1
  {
  }

  /** No two bits of a cycle of bytes share a sensor, and every sensor has its bit. */
  lemma SensorHasOneBit(sensor: nat, seqNo: nat, i: nat)
    requires i < 8
    ensures SensorAt(seqNo, i) == sensor <==> seqNo == sensor / 8 && i == 7 - sensor % 8
  {
    SensorNumbers(seqNo, i);
  }

  /** One bit of the byte: the attributions after it, and its delivery if there is one. */
  function Hit(attrs: seq<Attribution>, n: nat, sensor: int, time: int): (r: (seq<Attribution>, seq<Delivery>))
    requires n <= |attrs|
    ensures |r.0| == |attrs|
  {
    var i := Chosen(attrs[..n], sensor);
    if 0 <= i < |attrs| then
      (attrs[i := attrs[i].(prevTime := time)], [Delivery(attrs[i].engineerTid, SENSOR_TRIGGER, sensor, time)])
    else (attrs, [])
  }

  /** A hit goes to the engineer chosen, whose entry alone remembers its time; without one, nothing
      happens. */
  lemma HitIsRemembered(attrs: seq<Attribution>, n: nat, sensor: int, time: int)
    requires n <= |attrs|
    ensures var i, (after, ds) := Chosen(attrs[..n], sensor), Hit(attrs, n, sensor, time);
      && (forall j: nat :: j < n ==> after[j] == if j == i then attrs[j].(prevTime := time) else attrs[j])
      && (forall j: nat :: n <= j < |attrs| ==> after[j] == attrs[j])
      && (ds == [] <==> i == -1)
      && (ds != [] ==> 0 <= i < n && ds == [Delivery(attrs[i].engineerTid, SENSOR_TRIGGER, sensor, time)])
  {
    hide Chosen;
    ChosenClaims(attrs[..n], sensor);
  }

  /** The lowest k bits of the byte. */
  function Hits(attrs: seq<Attribution>, n: nat, data: nat, seqNo: nat, time: int, k: nat)
    : (r: (seq<Attribution>, seq<Delivery>))
    requires n <= |attrs|
    ensures |r.0| == |attrs|
  {
    if k == 0 then (attrs, [])
    else
      var (before, ds) := Hits(attrs, n, data, seqNo, time, k - 1);
      if Bit(data, k - 1) then
        var (after, d) := Hit(before, n, SensorAt(seqNo, k - 1), time);
        (after, ds + d)
      else (before, ds)
  }

  /** The sensors among the lowest k bits that are set and claimed. */
  ghost function ClaimedHits(attrs: seq<Attribution>, n: nat, data: nat, seqNo: nat, k: nat): seq<int>
    requires n <= |attrs|
  {
    if k == 0 then []
    else
      var sensor := SensorAt(seqNo, k - 1);
      ClaimedHits(attrs, n, data, seqNo, k - 1) +
      if Bit(data, k - 1) && exists i: nat :: i < n && Claims(attrs[i], sensor) then [sensor] else []
  }

  ghost predicate SameClaims(attrs: seq<Attribution>, other: seq<Attribution>) {
    |attrs| == |other| && forall i: nat :: i < |attrs| ==> other[i] == attrs[i].(prevTime := other[i].prevTime)
  }

  /** A byte delivers one message for each bit that is set and whose sensor is claimed, in order,
      each to an engineer that claims it; no claim changes. */
  lemma {:induction false} EveryClaimedHitIsDelivered(
    attrs: seq<Attribution>, n: nat, data: nat, seqNo: nat, time: int, k: nat)
    requires n <= |attrs|
    ensures var (after, ds) := Hits(attrs, n, data, seqNo, time, k); var hits := ClaimedHits(attrs, n, data, seqNo, k);
      && SameClaims(attrs, after) && |ds| == |hits|
      && forall j: nat :: j < |ds| ==>
           ds[j].nodeIndex == hits[j] && ds[j].timestamp == time && ds[j].kind == SENSOR_TRIGGER
           && exists i: nat :: i < n && Claims(attrs[i], hits[j]) && ds[j].tid == attrs[i].engineerTid
  {
    hide Chosen, Bit, SensorAt;
    if k > 0 {
      EveryClaimedHitIsDelivered(attrs, n, data, seqNo, time, k - 1);
      var (before, ds) := Hits(attrs, n, data, seqNo, time, k - 1);
      var sensor := SensorAt(seqNo, k - 1);
      ChosenClaims(before[..n], sensor);
      var i := Chosen(before[..n], sensor);
      assert forall j: nat :: j < n ==> before[..n][j] == attrs[j].(prevTime := before[j].prevTime);
      if i >= 0 {
        assert Claims(attrs[i], sensor) && before[i].engineerTid == attrs[i].engineerTid;
      } else {
        forall j: nat | j < n ensures !Claims(attrs[j], sensor) { assert !Claims(before[..n][j], sensor); }
      }
    }
  }

  // ----- the server -----

  datatype State = State(attrs: seq<Attribution>, numEngineer: nat, desk: HandOff.State<Delivery>)

  const START := State([NOBODY, NOBODY], 0, HandOff.State(0, []))

  /** The entry of the first engineer with this courier, or the length if there is none. */
  function IndexOf(attrs: seq<Attribution>, courierTid: int): (i: nat)
    ensures i <= |attrs| && (i < |attrs| ==> attrs[i].courierTid == courierTid)
    ensures forall j: nat :: j < i ==> attrs[j].courierTid != courierTid
  {
    if attrs == [] || attrs[0].courierTid == courierTid then 0 else 1 + IndexOf(attrs[1..], courierTid)
  }

  function Claimed(attrs: seq<Attribution>, n: nat, courierTid: int, primary: int, secondary: int)
    : (r: seq<Attribution>)
    requires n <= |attrs|
    ensures |r| == |attrs|
  {
    var i := IndexOf(attrs[..n], courierTid);
    if i < n then attrs[i := attrs[i].(primary := primary, secondary := secondary)] else attrs
  }

  function Offers(ds: seq<Delivery>): (es: seq<HandOff.Event<Delivery>>)
    ensures |es| == |ds| && forall i: nat :: i < |ds| ==> es[i] == HandOff.Event.Offer(ds[i])
  {
    seq(|ds|, i requires 0 <= i < |ds| => HandOff.Event.Offer(ds[i]))
  }

  function StepAll(s: HandOff.State<Delivery>, es: seq<HandOff.Event<Delivery>>): HandOff.State<Delivery> {
    if es == [] then s else HandOff.Step(StepAll(s, es[..|es| - 1]), es[|es| - 1], CAPACITY)
  }

  function GivenAll(s: HandOff.State<Delivery>, es: seq<HandOff.Event<Delivery>>): seq<HandOff.Gift<Delivery>> {
    if es == [] then [] else GivenAll(s, es[..|es| - 1]) + HandOff.Given(StepAll(s, es[..|es| - 1]), es[|es| - 1])
  }

  /** What a request means for the courier's desk. */
  function DeskEvents(s: State, r: Request): seq<HandOff.Event<Delivery>>
    requires s.numEngineer <= |s.attrs|
  {
    match r
    case NewSensor(_, data, seqNo, time) => Offers(Hits(s.attrs, s.numEngineer, data, seqNo, time, 8).1)
    case RequestSensor(tid) => [HandOff.Event.Ask(tid)]
    case _ => []
  }

  predicate Ok(s: State) {
    s.numEngineer <= |s.attrs| == MAX_NUM_ENGINEER
  }

  /** The table of engineers has room for one more. */
  predicate Acceptable(s: State, r: Request) {
    r.InitialClaim? ==> s.numEngineer < MAX_NUM_ENGINEER
  }

  function Step(s: State, r: Request): (t: State)
    requires Ok(s) && Acceptable(s, r)
    ensures Ok(t)
  {
    var desk := StepAll(s.desk, DeskEvents(s, r));
    match r
    case NewSensor(_, data, seqNo, time) =>
      State(Hits(s.attrs, s.numEngineer, data, seqNo, time, 8).0, s.numEngineer, desk)
    case RequestSensor(_) => s.(desk := desk)
    case ClaimSensor(tid, primary, secondary) => s.(attrs := Claimed(s.attrs, s.numEngineer, tid, primary, secondary))
    case InitialClaim(tid, index, engineerTid) =>
      var n := s.numEngineer;
      var attr := s.attrs[n].(courierTid := tid, engineerTid := engineerTid, primary := index);
      s.(attrs := s.attrs[n := attr], numEngineer := n + 1)
  }

  function Answers(gifts: seq<HandOff.Gift<Delivery>>): seq<Reply> {
    seq(|gifts|, i requires 0 <= i < |gifts| => Reply.Delivered(gifts[i].to, gifts[i].x))
  }

  function Replies(s: State, r: Request): seq<Reply>
    requires Ok(s)
  {
    Answers(GivenAll(s.desk, DeskEvents(s, r))) + if r.RequestSensor? then [] else [Empty(r.tid)]
  }

  class Server {
    const attrs: array<Attribution>
    const desk: HandOff.Desk<Delivery>
    var numEngineer: nat

    ghost predicate Valid()
      reads this, attrs, desk, desk.ring
    {
      attrs.Length == MAX_NUM_ENGINEER && numEngineer <= MAX_NUM_ENGINEER && desk.Valid()
        && desk.ring.size == CAPACITY + 1
    }

    ghost function Now(): (s: State)
      reads this, attrs, desk, desk.ring, desk.ring.data
      requires Valid()
      ensures Ok(s)
    {
      State(attrs[..], numEngineer, desk.Now())
    }

    constructor ()
      ensures Valid() && Now() == START
      ensures fresh(attrs) && fresh(desk) && fresh(desk.ring) && fresh(desk.ring.data)
    {
      attrs := new Attribution[MAX_NUM_ENGINEER](_ => NOBODY);
      var sensorBuf := new Delivery[CAPACITY + 1](_ => Delivery(0, 0, 0, 0));
      var ring := new Ring(sensorBuf);
      desk := new HandOff.Desk(ring);
      numEngineer := 0;
    }

    /** The loop over the attributions. */
    method Attribute(sensor: int) returns (attrIndex: int)
      requires Valid()
      ensures attrIndex == Chosen(attrs[..numEngineer], sensor)
    {
      var b := Best(-1, -1, -1, -1);
      for i := 0 to numEngineer
        invariant b == Scan(attrs[..i], sensor)
      {
        assert attrs[..i + 1][..i] == attrs[..i];
        var attr := attrs[i];
        if attr.primary == sensor {
          if b.primaryTime == -1 || attr.prevTime < b.primaryTime || attr.prevTime == -1 {
            b := b.(primary := i, primaryTime := attr.prevTime);
          }
        } else if attr.secondary == sensor {
          if b.secondaryTime == -1 || attr.prevTime < b.secondaryTime {
            b := b.(secondary := i, secondaryTime := attr.prevTime);
          }
        }
      }
      attrIndex := if b.primary >= 0 then b.primary else b.secondary;
    }

    /** The loop over the byte. */
    method HandleByte(data: nat, seqNo: nat, time: int) returns (gifts: seq<HandOff.Gift<Delivery>>)
      requires Valid()
      modifies attrs, desk, desk.ring, desk.ring.data
      ensures Valid()
      ensures var s := old(Now()); var (after, ds) := Hits(s.attrs, s.numEngineer, data, seqNo, time, 8);
        Now() == State(after, s.numEngineer, StepAll(s.desk, Offers(ds))) && gifts == GivenAll(s.desk, Offers(ds))
    {
      hide Hits, Hit, Chosen, SensorAt, Bit, StepAll, GivenAll, Offers;
      ghost var s := Now();
      NoHits(s.attrs, numEngineer, data, seqNo, time, s.desk);
      gifts := [];
      for i := 0 to 8
        invariant Valid()
        invariant var (after, ds) := Hits(s.attrs, numEngineer, data, seqNo, time, i);
          attrs[..] == after && desk.Now() == StepAll(s.desk, Offers(ds)) && gifts == GivenAll(s.desk, Offers(ds))
      {
        HitsMore(s.attrs, numEngineer, data, seqNo, time, i);
        ghost var ds := Hits(s.attrs, numEngineer, data, seqNo, time, i).1;
        if Bit(data, i) {
          var sensor := SensorAt(seqNo, i);
          var attrIndex := Attribute(sensor);
          ChosenClaims(attrs[..numEngineer], sensor);
          if attrIndex >= 0 {
            attrs[attrIndex] := attrs[attrIndex].(prevTime := time);
            var delivery := Delivery(attrs[attrIndex].engineerTid, SENSOR_TRIGGER, sensor, time);
            OfferMore(s.desk, ds, delivery);
            var given := desk.Offer(delivery);
            gifts := gifts + given;
          }
        }
      }
    }

    method Serve(r: Request) returns (replies: seq<Reply>)
      requires Valid() && Acceptable(Now(), r)
      modifies this, attrs, desk, desk.ring, desk.ring.data
      ensures Valid() && Now() == Step(old(Now()), r) && replies == Replies(old(Now()), r)
    {
      hide Hits, StepAll, GivenAll, Offers, Claimed;
      NoEvents(desk.Now());
      match r
      case NewSensor(tid, data, seqNo, time) =>
        var gifts := HandleByte(data, seqNo, time);
        replies := Answers(gifts) + [Empty(tid)];
      case RequestSensor(tid) =>
        OneEvent(desk.Now(), HandOff.Event.Ask(tid));
        var gifts := desk.Ask(tid);
        replies := Answers(gifts);
      case ClaimSensor(tid, primary, secondary) =>
        SetAttribution(tid, primary, secondary);
        replies := [Empty(tid)];
      case InitialClaim(tid, index, engineerTid) =>
        var n := numEngineer;
        numEngineer := n + 1;
        attrs[n] := attrs[n].(courierTid := tid, engineerTid := engineerTid, primary := index);
        replies := [Empty(tid)];
    }

    method SetAttribution(courierTid: int, primary: int, secondary: int)
      requires Valid()
      modifies attrs
      ensures attrs[..] == Claimed(old(attrs[..]), numEngineer, courierTid, primary, secondary)
    {
      ghost var known := attrs[..numEngineer];
      for i := 0 to numEngineer
        invariant attrs[..] == old(attrs[..]) && IndexOf(known, courierTid) >= i
      {
        if attrs[i].courierTid == courierTid {
          assert known[i] == attrs[i];
          attrs[i] := attrs[i].(primary := primary, secondary := secondary);
          return;
        }
      }
    }
  }

  lemma NoHits(attrs: seq<Attribution>, n: nat, data: nat, seqNo: nat, time: int, s: HandOff.State<Delivery>)
    requires n <= |attrs|
    ensures Hits(attrs, n, data, seqNo, time, 0) == (attrs, [])
    ensures StepAll(s, Offers([])) == s && GivenAll(s, Offers([])) == []
  {
  }

  lemma HitsMore(attrs: seq<Attribution>, n: nat, data: nat, seqNo: nat, time: int, k: nat)
    requires n <= |attrs|
    ensures var (before, ds) := Hits(attrs, n, data, seqNo, time, k);
      var i := Chosen(before[..n], SensorAt(seqNo, k));
      && |before| == |attrs|
      && Hits(attrs, n, data, seqNo, time, k + 1) ==
           if Bit(data, k) && 0 <= i < |attrs| then
             (before[i := before[i].(prevTime := time)],
              ds + [Delivery(before[i].engineerTid, SENSOR_TRIGGER, SensorAt(seqNo, k), time)])
           else (before, ds)
  {
    hide Chosen, Bit, SensorAt;
    var ds := Hits(attrs, n, data, seqNo, time, k).1;
    assert ds + [] == ds;
  }

  lemma OfferMore(s: HandOff.State<Delivery>, ds: seq<Delivery>, d: Delivery)
    ensures var e := HandOff.Event.Offer(d);
      && StepAll(s, Offers(ds + [d])) == HandOff.Step(StepAll(s, Offers(ds)), e, CAPACITY)
      && GivenAll(s, Offers(ds + [d])) == GivenAll(s, Offers(ds)) + HandOff.Given(StepAll(s, Offers(ds)), e)
  {
    assert Offers(ds + [d]) == Offers(ds) + [HandOff.Event.Offer(d)];
  }

  lemma NoEvents(s: HandOff.State<Delivery>)
    ensures StepAll(s, []) == s && GivenAll(s, []) == []
  {
  }

  lemma OneEvent(s: HandOff.State<Delivery>, e: HandOff.Event<Delivery>)
    ensures StepAll(s, [e]) == HandOff.Step(s, e, CAPACITY) && GivenAll(s, [e]) == HandOff.Given(s, e)
  {
    assert [e][..0] == [];
  }

  /** From a claim on, hits of the sensor claimed first go to engineers that claim it first, and the
      claimant is one; other entries keep their claims. */
  lemma ClaimTakesEffect(s: State, tid: nat, primary: int, secondary: int, i: nat)
    requires Ok(s) && i < s.numEngineer && s.attrs[i].courierTid == tid
    requires forall j: nat :: j < i ==> s.attrs[j].courierTid != tid
    ensures var t := Step(s, ClaimSensor(tid, primary, secondary));
      && t.attrs[i] == s.attrs[i].(primary := primary, secondary := secondary)
      && (forall j: nat :: j < |s.attrs| && j != i ==> t.attrs[j] == s.attrs[j])
      && var chosen := Chosen(t.attrs[..t.numEngineer], primary);
         0 <= chosen < t.numEngineer && t.attrs[chosen].primary == primary
  {
    hide Chosen;
    FirstIndex(s.attrs[..s.numEngineer], tid, i);
    var t := Step(s, ClaimSensor(tid, primary, secondary));
    ChosenClaims(t.attrs[..t.numEngineer], primary);
    assert Claims(t.attrs[..t.numEngineer][i], primary);
  }

  lemma FirstIndex(attrs: seq<Attribution>, tid: int, i: nat)
    requires i < |attrs| && attrs[i].courierTid == tid && forall j: nat :: j < i ==> attrs[j].courierTid != tid
    ensures IndexOf(attrs, tid) == i
  {
  }

  /** The first claim of an engineer adds it, with that claim, to those that are asked. */
  lemma InitialClaimTakesEffect(s: State, tid: nat, index: int, engineerTid: int)
    requires Ok(s) && s.numEngineer < MAX_NUM_ENGINEER
    ensures var n, t := s.numEngineer, Step(s, InitialClaim(tid, index, engineerTid));
      && t.numEngineer == n + 1 && t.attrs[n].courierTid == tid && t.attrs[n].engineerTid == engineerTid
      && (forall j: nat :: j < |s.attrs| && j != n ==> t.attrs[j] == s.attrs[j])
      && var chosen := Chosen(t.attrs[..n + 1], index);
         0 <= chosen <= n && t.attrs[chosen].primary == index
  {
    hide Chosen;
    var n, t := s.numEngineer, Step(s, InitialClaim(tid, index, engineerTid));
    ChosenClaims(t.attrs[..n + 1], index);
    assert Claims(t.attrs[..n + 1][n], index);
  }

  // ----- every run -----

  ghost predicate Possible(requests: seq<Request>)
    decreases requests, 0
  {
    requests == [] ||
    (Possible(requests[..|requests| - 1]) && Acceptable(Run(requests[..|requests| - 1]), requests[|requests| - 1]))
  }

  ghost function Run(requests: seq<Request>): (s: State)
    requires Possible(requests)
    ensures Ok(s)
    decreases requests, 1
  {
    if requests == [] then START else Step(Run(requests[..|requests| - 1]), requests[|requests| - 1])
  }

  /** Everything that happens at the courier's desk in a run. */
  ghost function AtDesk(requests: seq<Request>): seq<HandOff.Event<Delivery>>
    requires Possible(requests)
  {
    if requests == [] then []
    else AtDesk(requests[..|requests| - 1]) + DeskEvents(Run(requests[..|requests| - 1]), requests[|requests| - 1])
  }

  lemma {:induction false} DeskRuns(before: seq<HandOff.Event<Delivery>>, es: seq<HandOff.Event<Delivery>>)
    ensures HandOff.Run(before + es, CAPACITY).s == StepAll(HandOff.Run(before, CAPACITY).s, es)
  {
    if es == [] {
      assert before + es == before;
    } else {
      DeskRuns(before, es[..|es| - 1]);
      assert (before + es)[..|before + es| - 1] == before + es[..|es| - 1];
    }
  }

  lemma {:induction false} DeskOfRun(requests: seq<Request>)
    requires Possible(requests)
    ensures Run(requests).desk == HandOff.Run(AtDesk(requests), CAPACITY).s
  {
    if requests != [] {
      var before := requests[..|requests| - 1];
      DeskOfRun(before);
      DeskRuns(AtDesk(before), DeskEvents(Run(before), requests[|requests| - 1]));
    }
  }

  /** Whenever a delivery is taken from the queue no courier is blocked: the assertion of the
      request case cannot fail, whoever sends it and how often. */
  lemma NoCourierIsBlocked(requests: seq<Request>)
    requires Possible(requests)
    ensures Run(requests).desk.queue != [] ==> Run(requests).desk.waiting == 0
  {
    DeskOfRun(requests);
    HandOff.AlwaysIdle(AtDesk(requests), CAPACITY);
  }

  /** The deliveries handed over, then those queued, are those created, in order, exactly if none
      met a full ring. */
  lemma DeliveriesInOrder(requests: seq<Request>)
    requires Possible(requests)
    ensures var h := HandOff.Run(AtDesk(requests), CAPACITY);
      && h.s == Run(requests).desk
      && (h.offered == h.given + h.s.queue <==> HandOff.Lossless(AtDesk(requests), CAPACITY))
  {
    DeskOfRun(requests);
    HandOff.NothingLostIff(AtDesk(requests), CAPACITY);
  }

  // ----- the replies -----

  /** The deliveries among these replies, with the couriers that get them. */
  function GiftsOf(replies: seq<Reply>): seq<HandOff.Gift<Delivery>> {
    if replies == [] then []
    else
      var last := replies[|replies| - 1];
      GiftsOf(replies[..|replies| - 1]) + if last.Delivered? then [HandOff.Gift(last.tid, last.delivery)] else []
  }

  /** The tasks that get an empty reply. */
  function Acknowledged(replies: seq<Reply>): seq<nat> {
    if replies == [] then []
    else
      var last := replies[|replies| - 1];
      Acknowledged(replies[..|replies| - 1]) + if last.Empty? then [last.tid] else []
  }

  lemma {:induction false} RepliesSplit(a: seq<Reply>, b: seq<Reply>)
    ensures GiftsOf(a + b) == GiftsOf(a) + GiftsOf(b) && Acknowledged(a + b) == Acknowledged(a) + Acknowledged(b)
  {
    if b == [] {
      assert a + b == a;
    } else {
      RepliesSplit(a, b[..|b| - 1]);
      assert (a + b)[..|a + b| - 1] == a + b[..|b| - 1];
    }
  }

  lemma {:induction false} GiftsOfAnswers(gifts: seq<HandOff.Gift<Delivery>>)
    ensures GiftsOf(Answers(gifts)) == gifts && Acknowledged(Answers(gifts)) == []
  {
    if gifts != [] {
      GiftsOfAnswers(gifts[..|gifts| - 1]);
      assert Answers(gifts)[..|gifts| - 1] == Answers(gifts[..|gifts| - 1]);
    }
  }

  /** Every task but a courier that asks is answered at once; what is handed over at the desk is
      replied to the courier that it is for. */
  lemma RepliesAre(s: State, r: Request)
    requires Ok(s)
    ensures GiftsOf(Replies(s, r)) == GivenAll(s.desk, DeskEvents(s, r))
    ensures Acknowledged(Replies(s, r)) == if r.RequestSensor? then [] else [r.tid]
  {
    hide GivenAll, DeskEvents;
    var gifts := GivenAll(s.desk, DeskEvents(s, r));
    GiftsOfAnswers(gifts);
    var last := if r.RequestSensor? then [] else [Empty(r.tid)];
    RepliesSplit(Answers(gifts), last);
    assert last[..0] == [];
  }

  ghost function AllReplies(requests: seq<Request>): seq<Reply>
    requires Possible(requests)
  {
    if requests == [] then []
    else AllReplies(requests[..|requests| - 1]) + Replies(Run(requests[..|requests| - 1]), requests[|requests| - 1])
  }

  function Callers(requests: seq<Request>): seq<nat> {
    if requests == [] then []
    else
      var r := requests[|requests| - 1];
      Callers(requests[..|requests| - 1]) + if r.RequestSensor? then [] else [r.tid]
  }

  lemma {:induction false} DeskGives(before: seq<HandOff.Event<Delivery>>, es: seq<HandOff.Event<Delivery>>)
    ensures var h, gifts := HandOff.Run(before, CAPACITY), GivenAll(HandOff.Run(before, CAPACITY).s, es);
      var t := HandOff.Run(before + es, CAPACITY);
      t.given == h.given + HandOff.Things(gifts) && t.givenTo == h.givenTo + HandOff.Takers(gifts)
  {
    hide HandOff.Run, HandOff.Step, HandOff.Given, HandOff.Things, HandOff.Takers;
    hide StepAll;
    NoEvents(HandOff.Run(before, CAPACITY).s);
    var h := HandOff.Run(before, CAPACITY);
    if es == [] {
      assert before + es == before;
    } else {
      var rest, e := es[..|es| - 1], es[|es| - 1];
      DeskGives(before, rest);
      DeskRuns(before, rest);
      HandOff.RunMore(before + rest, e, CAPACITY);
      assert before + es == (before + rest) + [e];
      HandOff.GiftsSplit(GivenAll(h.s, rest), HandOff.Given(StepAll(h.s, rest), e));
    }
  }

  lemma NoReplies()
    ensures GiftsOf([]) == [] && Acknowledged([]) == []
    ensures var h := HandOff.Run<Delivery>([], CAPACITY); h.given == [] && h.givenTo == []
  {
  }

  /** Over every run: the replies with deliveries are what the desk hands over, each to the courier
      whose turn it is, and every other caller is answered once, in order. */
  lemma {:induction false} EveryoneIsAnswered(requests: seq<Request>)
    requires Possible(requests)
    ensures var h, gifts := HandOff.Run(AtDesk(requests), CAPACITY), GiftsOf(AllReplies(requests));
      HandOff.Things(gifts) == h.given && HandOff.Takers(gifts) == h.givenTo
    ensures Acknowledged(AllReplies(requests)) == Callers(requests)
  {
    hide Replies, DeskEvents, GivenAll, Step, HandOff.Run, Acceptable, GiftsOf, Acknowledged;
    NoReplies();
    if requests != [] {
      var before, r := requests[..|requests| - 1], requests[|requests| - 1];
      var s := Run(before);
      EveryoneIsAnswered(before);
      RepliesAre(s, r);
      RepliesSplit(AllReplies(before), Replies(s, r));
      DeskOfRun(before);
      DeskGives(AtDesk(before), DeskEvents(s, r));
      HandOff.GiftsSplit(GiftsOf(AllReplies(before)), GiftsOf(Replies(s, r)));
    }
  }
}
