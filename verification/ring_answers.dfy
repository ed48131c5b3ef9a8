/** Which requests a run answers, what their clients read, and runs that show the failures. */
module RingAnswers {
  import opened Words
  import opened Packets
  import opened Intervals
  import opened Framing
  import opened PeerSteps
  import opened RingMachine
  import opened RingSafety
  import opened RingInvariant
  import opened RingDelivery
  import opened RingTheorems
  import opened RingProgress

  // ---------- requests with covered hashes are answered, whatever else is sent ----------

  lemma {:induction false} NoneAbout(cfg: Config, net: seq<Msg>, a: Addr, h: uint16)
    requires cfg.Ok() && NoneCovered(cfg, net) && Covered(cfg.ids, h)
    ensures Count(net, a, h) == 0
    decreases |net|
  {
    hide Covered;
    if net != [] {
      NoneAbout(cfg, net[1..], a, h);
    }
  }

  /** At every peer, every request for a covered hash has been answered, in order of arrival. */
  predicate AllCoveredAnswered(cfg: Config, s: State)
    requires cfg.Ok()
  {
    forall i: nat, h: uint16 :: i < |s.nodes| && Covered(cfg.ids, h) ==> AnsweredFor(s, i, h)
  }

  lemma AllAnswered(cfg: Config, s: State)
    requires Inv(cfg, s) && NoneCovered(cfg, s.net)
    ensures AllCoveredAnswered(cfg, s)
  {
    hide Inv, NoneCovered, Covered, Arrived, Answered, Pending, Refines, ParkedRight, NetOk, AnsweredFor;
    Sizes(cfg, s);
    forall i: nat, h: uint16 | i < |s.nodes| && Covered(cfg.ids, h)
      ensures AnsweredFor(s, i, h)
    {
      NoneAbout(cfg, s.net, cfg.addrs[i], h);
      NothingInFlight(cfg, s, i, h);
    }
  }

  lemma InitNet(n: nat)
    ensures Init(n).net == [] && Init(n).served == [] && |Init(n).nodes| == n
  {
  }

  lemma NothingUncovered(cfg: Config)
    requires cfg.Ok()
    ensures AllCovered(cfg, [])
  {
  }

  /**
   * After any run, whatever its requests, at most as many deliveries as the measure says answer
   * every request for a covered hash; if no other request was sent the network is then empty.
   */
  lemma EveryRequestAnswered(cfg: Config, es: seq<Event>) returns (more: seq<Event>)
    requires cfg.Ok() && AllEnabled(cfg, Init(|cfg.ids|), es)
    ensures var s := Run(cfg, Init(|cfg.ids|), es);
      && AllEnabled(cfg, s, more) && OnlyDeliveries(more)
      && |more| == Measure(cfg, s.net)
      && var q := Run(cfg, s, more);
        && AllCoveredAnswered(cfg, q) && q.arrivals == s.arrivals
        && (CoveredRequests(cfg, es) ==> q.net == [])
  {
    hide Inv, Init, Measure, AllCovered, NoneCovered, Run, CoveredRequests, Covered, Arrived, Answered,
      OnlyDeliveries, AllCoveredAnswered, Pending;
    var s0 := Init(|cfg.ids|);
    InitInv(cfg);
    InitNet(|cfg.ids|);
    var s := Run(cfg, s0, es);
    RunKeepsInv(cfg, s0, es);
    more := CoveredDrain(cfg, s);
    var q := Run(cfg, s, more);
    RunKeepsInv(cfg, s, more);
    DeliveriesCounted(cfg, s, more);
    AllAnswered(cfg, q);
    if CoveredRequests(cfg, es) {
      NothingUncovered(cfg);
      CoveredRequestsStayCovered(cfg, s0, es);
      if q.net != [] {
        SomethingCovered(cfg, q.net);
      }
    }
  }

  predicate IsAnswered(q: State, i: nat, h: uint16, j: nat, r: Request) {
    j < |Answered(q.served, i, h)| && Answered(q.served, i, h)[j] == r
  }

  /** The run can go on so that the request that arrived as number `j` at `i` for `h` is answered. */
  ghost predicate CanBeAnswered(cfg: Config, s: State, i: nat, h: uint16, j: nat)
    requires |cfg.ids| == |cfg.addrs| == |s.nodes| && j < |Arrived(s.arrivals, i, h)|
  {
    exists more :: AllEnabled(cfg, s, more)
      && IsAnswered(Run(cfg, s, more), i, h, j, Arrived(s.arrivals, i, h)[j])
  }

  /** In every run, a request that arrived can be answered exactly when its hash is covered. */
  lemma AnsweredExactly(cfg: Config, es: seq<Event>, i: nat, h: uint16, j: nat)
    requires cfg.Ok() && AllEnabled(cfg, Init(|cfg.ids|), es) && i < |cfg.ids|
    requires var s := Run(cfg, Init(|cfg.ids|), es); j < |Arrived(s.arrivals, i, h)|
    ensures CanBeAnswered(cfg, Run(cfg, Init(|cfg.ids|), es), i, h, j) <==> Covered(cfg.ids, h)
  {
    hide Inv, Init, Run, Covered, Arrived, Answered, AllEnabled, Measure, OnlyDeliveries,
      CoveredRequests;
    var s0 := Init(|cfg.ids|);
    InitInv(cfg);
    InitNet(|cfg.ids|);
    var s := Run(cfg, s0, es);
    RunKeepsInv(cfg, s0, es);
    if Covered(cfg.ids, h) {
      var more := EveryRequestAnswered(cfg, es);
      var q := Run(cfg, s, more);
      assert AnsweredFor(q, i, h);
      assert IsAnswered(q, i, h, j, Arrived(s.arrivals, i, h)[j]);
    } else {
      forall more | AllEnabled(cfg, s, more)
        ensures !IsAnswered(Run(cfg, s, more), i, h, j, Arrived(s.arrivals, i, h)[j])
      {
        RunKeepsInv(cfg, s, more);
        UncoveredNeverAnswered(cfg, Run(cfg, s, more), i, h);
      }
    }
  }

  // ---------- what clients read ----------

  /** The result has no non-zero byte behind a NUL. */
  predicate Clean(r: Result) {
    r.Found? ==> NothingAfterNul(r.key) && NothingAfterNul(r.value)
  }

  /**
   * In every run, a client reads exactly what the global map answers at that point if and only
   * if that answer has no non-zero byte behind a NUL.
   */
  lemma ReadExactly(cfg: Config, es: seq<Event>, j: nat)
    requires cfg.Ok() && AllEnabled(cfg, Init(|cfg.ids|), es)
    requires j < |Run(cfg, Init(|cfg.ids|), es).served|
    ensures var log := Run(cfg, Init(|cfg.ids|), es).served;
      var r := Respond(MapAfter(log[..j]), OpOf(log[j].request.packet));
      ReadReply(log[j].reply) == Some(r) <==> Clean(r)
  {
    hide Init, Run, AllEnabled, Partition, Conserved, NoOrphans, StrnCopy, NothingAfterNul, ReadReply,
      MapAfter, Respond, OpOf;
    InitNet(|cfg.ids|);
    EveryRunIsOneMap(cfg, es);
    var log := Run(cfg, Init(|cfg.ids|), es).served;
    var r := Respond(MapAfter(log[..j]), OpOf(log[j].request.packet));
    if r.Found? {
      StrnCopyExactly(r.key);
      StrnCopyExactly(r.value);
    }
  }

  /** The global map if every request did what it asks for. */
  function IntendedMap(log: seq<Served>): map<Bytes, Bytes> {
    if log == [] then map[]
    else Apply(IntendedMap(log[..|log| - 1]), IntendedOp(log[|log| - 1].request.packet))
  }

  /** Every client reads what the map of the requested operations answers, up to strncpy. */
  predicate AsRequested(log: seq<Served>) {
    forall j :: 0 <= j < |log| ==>
      ReadReply(log[j].reply)
      == Some(Copied(Respond(IntendedMap(log[..j]), IntendedOp(log[j].request.packet))))
  }

  lemma {:induction false} IntendedIsMap(log: seq<Served>)
    requires forall j :: 0 <= j < |log| ==> HasMethod(log[j].request.packet)
    ensures IntendedMap(log) == MapAfter(log)
    decreases |log|
  {
    hide HasMethod, Apply;
    if log != [] {
      IntendedIsMap(log[..|log| - 1]);
      MethodMeetsExactly(map[], log[|log| - 1].request.packet);
    }
  }

  /**
   * In every run, the answers are those of the operations that the clients ask for, up to
   * strncpy, if and only if every answered request has a method bit.
   */
  lemma RequestedExactly(cfg: Config, es: seq<Event>)
    requires cfg.Ok() && AllEnabled(cfg, Init(|cfg.ids|), es)
    ensures var log := Run(cfg, Init(|cfg.ids|), es).served;
      AsRequested(log) <==> forall j :: 0 <= j < |log| ==> HasMethod(log[j].request.packet)
  {
    hide Init, Run, AllEnabled, Partition, Conserved, NoOrphans, ReadReply, StrnCopy, MapAfter,
      IntendedMap, HasMethod;
    InitNet(|cfg.ids|);
    EveryRunIsOneMap(cfg, es);
    var log := Run(cfg, Init(|cfg.ids|), es).served;
    if forall j :: 0 <= j < |log| ==> HasMethod(log[j].request.packet) {
      forall j | 0 <= j < |log|
        ensures ReadReply(log[j].reply)
          == Some(Copied(Respond(IntendedMap(log[..j]), IntendedOp(log[j].request.packet))))
      {
        IntendedIsMap(log[..j]);
        MethodMeetsExactly(map[], log[j].request.packet);
      }
    }
    if AsRequested(log) {
      forall j | 0 <= j < |log| ensures HasMethod(log[j].request.packet) {
        var p := log[j].request.packet;
        assert ReadReply(log[j].reply) == Some(Copied(Respond(MapAfter(log[..j]), OpOf(p))));
        assert IntendedOp(p) == Invalid ==> OpOf(p) == Delete(p.key);
      }
    }
  }

  // ---------- the ring of launch.sh ----------

  /** The four peers that launch.sh starts, by ascending id. */
  const LAUNCH_RING := Config([10, 74, 138, 202],
    [Addr(0x7F00_0001, 4712), Addr(0x7F00_0001, 4713), Addr(0x7F00_0001, 4710),
     Addr(0x7F00_0001, 4711)])

  /** A GET, sent to peer 138, for a key that hashes to 5, below the smallest id. */
  const LOW_REQUEST := Request(7, NewPacket(GET).(keyLen := 2, key := [0, 5]))

  lemma LaunchRingOk()
    ensures LAUNCH_RING.Ok() && Enabled(LAUNCH_RING, Init(4), Client(2, LOW_REQUEST))
  {
  }

  function AfterLowRequest(): (s: State)
    ensures |s.nodes| == 4
  {
    LaunchRingOk();
    Step(LAUNCH_RING, Init(4), Client(2, LOW_REQUEST))
  }

  lemma FirstUncovered(cfg: Config, net: seq<Msg>)
    requires cfg.Ok() && |cfg.ids| > 0 && net != [] && !Covered(cfg.ids, net[0].packet.hashId)
    ensures !AllCovered(cfg, net)
  {
  }

  /**
   * A concrete failure: the circular interval gives hash 5 to peer 10, the code gives it to
   * nobody, and a request for it is never answered, however the run goes on.
   */
  lemma LowHashNeverAnswered(es: seq<Event>)
    requires AllEnabled(LAUNCH_RING, AfterLowRequest(), es)
    ensures CircularlyResponsible(LAUNCH_RING.ids, 0, 5)
    ensures forall i :: 0 <= i < 4 ==> !Responsible(LAUNCH_RING.ids, i, 5)
    ensures var q := Run(LAUNCH_RING, AfterLowRequest(), es);
      q.net != [] && Answered(q.served, 2, 5) == []
  {
    hide Step, Run, AllEnabled, Inv, AllCovered, Deliverable, Answered, Arrived;
    var cfg := LAUNCH_RING;
    var s := AfterLowRequest();
    LaunchRingOk();
    assert forall i :: 0 <= i < 4 ==> !Responsible(cfg.ids, i, 5);
    InitInv(cfg);
    StepKeepsInv(cfg, Init(4), Client(2, LOW_REQUEST));
    assert PseudoHash(LOW_REQUEST.packet.key) == 5;
    ClientParked(cfg, Init(4), 2, LOW_REQUEST);
    assert s.net[0].packet.hashId == 5;
    assert !AllCovered(cfg, s.net) by { FirstUncovered(cfg, s.net); }
    UncoveredNeverDrains(cfg, s, es);
    RunKeepsInv(cfg, s, es);
    assert !Covered(cfg.ids, 5);
    UncoveredNeverAnswered(cfg, Run(cfg, s, es), 2, 5);
  }

  // ---------- two requests in a row at the responsible peer ----------

  lemma ServedTwice(cfg: Config, i: nat, first: Request, second: Request)
    requires cfg.Ok() && i < |cfg.ids| && IsRequest(first.packet) && IsRequest(second.packet)
    requires Responsible(cfg.ids, i, PseudoHash(first.packet.key))
    requires Responsible(cfg.ids, i, PseudoHash(second.packet.key))
    ensures var es := [Client(i, first), Client(i, second)]; var s0 := Init(|cfg.ids|);
      && |s0.nodes| == |cfg.ids|
      && AllEnabled(cfg, s0, es)
      && var log := Run(cfg, s0, es).served;
        && |log| == 2 && log[0].request == first && log[1].request == second
        && AnswersRight(log)
  {
    hide Deliverable, PseudoHash, Responsible, Init, Step, OwnReply, OwnTable, Serialize, AnswersRight,
      Partition, Conserved, NoOrphans, IsControl;
    var s0 := Init(|cfg.ids|);
    InitNet(|cfg.ids|);
    ClientServed(cfg, s0, i, first);
    var s1 := Step(cfg, s0, Client(i, first));
    ClientServed(cfg, s1, i, second);
    var s2 := Step(cfg, s1, Client(i, second));
    var es := [Client(i, first), Client(i, second)];
    assert es[1..] == [Client(i, second)] && es[1..][1..] == [];
    assert AllEnabled(cfg, s2, []);
    assert AllEnabled(cfg, s1, es[1..]);
    assert Run(cfg, s2, []) == s2;
    assert Run(cfg, s1, es[1..]) == s2;
    EveryRunIsOneMap(cfg, es);
  }

  const STORE_NUL := Request(7, NewPacket(SET).(keyLen := 3, key := [1, 0, 2],
                                               valueLen := 1, value := [9]))
  const READ_NUL := Request(8, NewPacket(GET).(keyLen := 3, key := [1, 0, 2]))

  /** A SET of key [1, 0, 2] and then a GET of it: the client reads the key [1, 0, 0]. */
  lemma NulIsLost()
    ensures var es := [Client(0, STORE_NUL), Client(0, READ_NUL)];
      && |Init(4).nodes| == 4
      && AllEnabled(LAUNCH_RING, Init(4), es)
      && var log := Run(LAUNCH_RING, Init(4), es).served;
        && |log| == 2
        && Respond(MapAfter(log[..1]), OpOf(log[1].request.packet)) == Found([1, 0, 2], [9])
        && ReadReply(log[1].reply) == Some(Found([1, 0, 0], [9]))
  {
    hide AllEnabled, Run, Init, ReadReply;
    LaunchRingOk();
    ServedTwice(LAUNCH_RING, 0, STORE_NUL, READ_NUL);
    var log := Run(LAUNCH_RING, Init(4), [Client(0, STORE_NUL), Client(0, READ_NUL)]).served;
    assert log[..1] == [log[0]] && log[..0] == [];
    assert MapAfter(log[..1]) == map[[1, 0, 2] := [9]] by { assert log[..1][..0] == []; }
    assert StrnCopy([1, 0, 2]) == [1, 0, 0] by {
      assert [1, 0, 2][1..] == [0, 2];
      assert StrnCopy([0, 2]) == [0, 0];
    }
    assert StrnCopy([9]) == [9];
  }

  const STORE_KEY := Request(7, NewPacket(SET).(keyLen := 2, key := [1, 1], valueLen := 1, value := [9]))
  const ASK_NOTHING := Request(8, NO_METHOD)

  /** A SET of key [1, 1] and then a packet without any flag: the entry is gone. */
  lemma NothingDeletes()
    ensures var es := [Client(0, STORE_KEY), Client(0, ASK_NOTHING)];
      && |Init(4).nodes| == 4
      && AllEnabled(LAUNCH_RING, Init(4), es)
      && var log := Run(LAUNCH_RING, Init(4), es).served;
        && IntendedMap(log) == map[[1, 1] := [9]] && MapAfter(log) == map[]
        && |log| == 2 && ReadReply(log[1].reply) == Some(Deleted)
  {
    hide AllEnabled, Run, Init, ReadReply;
    LaunchRingOk();
    ServedTwice(LAUNCH_RING, 0, STORE_KEY, ASK_NOTHING);
    var log := Run(LAUNCH_RING, Init(4), [Client(0, STORE_KEY), Client(0, ASK_NOTHING)]).served;
    assert log[..1] == [log[0]] && log[..1][..0] == [];
    assert MapAfter(log[..1]) == map[[1, 1] := [9]];
    assert IntendedMap(log[..1]) == map[[1, 1] := [9]];
  }
}
