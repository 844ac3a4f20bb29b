/**
 The bridges of all tunneled connections (src/transport/tunnel.rs:288-339, 414-436).

 Each connection has a bridge at either end. A bridge is one task that runs two copy loops, the first
 loop of one direction and the second loop of the other, and waits for both before it returns; on its
 return both of its halves are dropped. To show what the waiting is for, the machine can also be run
 with bridges that return as soon as either loop is done.
 */
module Bridges {
  import opened Numbers
  import opened Tunnel

  /** What a bridge waits for: both of its loops, as `join!` does, or either of them, as `select!` would. */
  datatype Policy = Join | Either

  /** Both directions of a connection, and whether the bridge at the near and at the far end has returned. */
  datatype Pair = Pair(out: Direction, back: Direction, nearDone: bool, farDone: bool)

  /** A new connection, an action in one direction of one of them, or the return of one of its bridges. */
  datatype Event =
    | Accept
    | Moves(i: nat, outward: bool, step: Step)
    | Returns(i: nat, near: bool)

  predicate Drops(step: Step) {
    step.FirstDropped? || step.SecondDropped?
  }

  /** May the bridge return? */
  predicate Ready(policy: Policy, p: Pair, near: bool) {
    var (a, b) := if near then (p.out.first, p.back.second) else (p.back.first, p.out.second);
    if policy.Join? then a.Stopped? && b.Stopped? else a.Stopped? || b.Stopped?
  }

  function PairNext(policy: Policy, p: Pair, e: Event): Pair
    requires !e.Accept?
  {
    match e
    case Moves(_, outward, step) =>
      if Drops(step) then p
      else if outward then p.(out := Next(p.out, step))
      else p.(back := Next(p.back, step))
    case Returns(_, near) =>
      if !Ready(policy, p, near) then p
      else if near then Pair(Next(p.out, FirstDropped), Next(p.back, SecondDropped), true, p.farDone)
      else Pair(Next(p.out, SecondDropped), Next(p.back, FirstDropped), p.nearDone, true)
  }

  /** Each accepted TCP connection has a stream and a pair of bridges of its own. */
  function PairsNext(policy: Policy, pairs: seq<Pair>, e: Event): seq<Pair> {
    if e.Accept? then pairs + [Pair(Idle(), Idle(), false, false)]
    else if e.i < |pairs| then pairs[e.i := PairNext(policy, pairs[e.i], e)]
    else pairs
  }

  function PairsExec(policy: Policy, events: seq<Event>): seq<Pair>
    decreases |events|
  {
    if events == [] then []
    else PairsNext(policy, PairsExec(policy, events[..|events| - 1]), events[|events| - 1])
  }

  ghost function Side(p: Pair, outward: bool): Direction {
    if outward then p.out else p.back
  }

  // ---------------------------------------------------------------- a direction of the coupled machine

  /** What an event does to one direction of its connection: at most one step. */
  function StepFor(policy: Policy, p: Pair, e: Event, outward: bool): seq<Step>
    requires !e.Accept?
  {
    match e
    case Moves(_, o, step) => if o == outward && !Drops(step) then [step] else []
    case Returns(_, near) =>
      if !Ready(policy, p, near) then [] else if near == outward then [FirstDropped] else [SecondDropped]
  }

  /** All the steps of one direction of connection i, the drops by its bridges among them. */
  function StepsOf(policy: Policy, events: seq<Event>, i: nat, outward: bool): seq<Step>
    decreases |events|
  {
    if events == [] then []
    else
      var init, e := events[..|events| - 1], events[|events| - 1];
      var pairs := PairsExec(policy, init);
      StepsOf(policy, init, i, outward)
      + if !e.Accept? && e.i == i && i < |pairs| then StepFor(policy, pairs[i], e, outward) else []
  }

  lemma SideNext(policy: Policy, p: Pair, e: Event, outward: bool)
    requires !e.Accept?
    ensures var d, steps := Side(p, outward), StepFor(policy, p, e, outward);
            Side(PairNext(policy, p, e), outward) == if steps == [] then d else Next(d, steps[0])
  {
  }

  lemma {:induction false} NoStepsBeforeOpening(policy: Policy, events: seq<Event>, i: nat, outward: bool)
    requires |PairsExec(policy, events)| <= i
    ensures StepsOf(policy, events, i, outward) == []
    decreases |events|
  {
    if events != [] {
      NoStepsBeforeOpening(policy, events[..|events| - 1], i, outward);
    }
  }

  /** A direction of the coupled machine is a run of its own steps and the drops that its bridges make. */
  lemma {:induction false} SideIsRun(policy: Policy, events: seq<Event>, i: nat, outward: bool)
    requires i < |PairsExec(policy, events)|
    ensures Side(PairsExec(policy, events)[i], outward) == Exec(StepsOf(policy, events, i, outward))
    decreases |events|
  {
    var init, e := events[..|events| - 1], events[|events| - 1];
    var pairs, steps := PairsExec(policy, init), StepsOf(policy, init, i, outward);
    if i < |pairs| {
      SideIsRun(policy, init, i, outward);
      if !e.Accept? && e.i == i {
        SideNext(policy, pairs[i], e, outward);
        ExecWith(steps, StepFor(policy, pairs[i], e, outward));
      } else {
        ExecWith(steps, []);
      }
    } else {
      NoStepsBeforeOpening(policy, init, i, outward);
      ExecWith(steps, []);
    }
  }

  lemma ExecWith(steps: seq<Step>, more: seq<Step>)
    requires |more| <= 1
    ensures Exec(steps + more) == if more == [] then Exec(steps) else Next(Exec(steps), more[0])
  {
    if more == [] {
      assert steps + more == steps;
    } else {
      assert more == [more[0]];
      ExecAppends(steps, more[0]);
    }
  }

  // ---------------------------------------------------------------- what the join does

  /** The bridges that have returned have no loop left that is running. */
  ghost predicate Joined(p: Pair) {
    && (p.nearDone ==> p.out.first.Stopped? && p.back.second.Stopped?)
    && (p.farDone ==> p.back.first.Stopped? && p.out.second.Stopped?)
  }

  /**
   No bridge has returned while one of its loops could still carry bytes: from there on its loops make
   no move, in any state the connection gets to.
   */
  lemma {:induction false} ReturnedBridgesAreDone(events: seq<Event>, i: nat, n: nat)
    requires i < |PairsExec(Join, events)|
    ensures var p := PairsExec(Join, events)[i];
            && Joined(p)
            && (p.nearDone ==> Next(p.out, FirstMoves(n)) == p.out && Next(p.back, SecondMoves(n)) == p.back)
            && (p.farDone ==> Next(p.back, FirstMoves(n)) == p.back && Next(p.out, SecondMoves(n)) == p.out)
    decreases |events|
  {
    var init, e := events[..|events| - 1], events[|events| - 1];
    if i < |PairsExec(Join, init)| {
      ReturnedBridgesAreDone(init, i, n);
      if !e.Accept? && e.i == i {
        JoinedKept(PairsExec(Join, init)[i], e);
      }
    }
  }

  lemma JoinedKept(p: Pair, e: Event)
    requires Joined(p) && !e.Accept?
    ensures Joined(PairNext(Join, p, e))
  {
  }

  /** A direction without the note of who has dropped its channels. */
  ghost function Plain(d: Direction): Direction {
    d.(entry := d.entry.(gone := false), stream := d.stream.(gone := false), exit := d.exit.(gone := false))
  }

  function Opened(events: seq<Event>): nat
    decreases |events|
  {
    if events == [] then 0
    else Opened(events[..|events| - 1]) + if events[|events| - 1].Accept? then 1 else 0
  }

  lemma {:induction false} OpenedCounts(policy: Policy, events: seq<Event>)
    ensures |PairsExec(policy, events)| == Opened(events)
    decreases |events|
  {
    if events != [] {
      OpenedCounts(policy, events[..|events| - 1]);
    }
  }

  /** The direction's own actions: those of its loops and of the applications at its ends. */
  function OwnSteps(events: seq<Event>, i: nat, outward: bool): seq<Step>
    decreases |events|
  {
    if events == [] then []
    else
      var init, e := events[..|events| - 1], events[|events| - 1];
      OwnSteps(init, i, outward)
      + if e.Moves? && e.i == i && e.outward == outward && !Drops(e.step) && i < Opened(init) then [e.step] else []
  }

  /** No loop fails in these steps. */
  ghost predicate Unfailing(steps: seq<Step>) {
    forall k: nat | k < |steps| :: !steps[k].FirstFails? && !steps[k].SecondFails?
  }

  ghost predicate FailureFree(events: seq<Event>) {
    forall k: nat | k < |events| && events[k].Moves? :: !events[k].step.FirstFails? && !events[k].step.SecondFails?
  }

  lemma {:induction false} FailureFreeIsUnfailing(events: seq<Event>, i: nat, outward: bool)
    requires FailureFree(events)
    ensures Unfailing(OwnSteps(events, i, outward))
    decreases |events|
  {
    if events != [] {
      var init := events[..|events| - 1];
      assert forall k: nat | k < |init| :: init[k] == events[k];
      FailureFreeIsUnfailing(init, i, outward);
    }
  }

  ghost predicate Whole(d: Direction) {
    !Broken(d.first) && !Broken(d.second)
  }

  lemma WholeStep(d: Direction, step: Step)
    requires Whole(d) && d == Plain(d) && !step.FirstFails? && !step.SecondFails? && !Drops(step)
    ensures Whole(Next(d, step)) && Next(d, step) == Plain(Next(d, step))
  {
  }

  /** Own actions without a failure leave both loops whole. */
  lemma {:induction false} UnfailingIsWhole(events: seq<Event>, i: nat, outward: bool)
    requires Unfailing(OwnSteps(events, i, outward))
    ensures var d := Exec(OwnSteps(events, i, outward)); Whole(d) && d == Plain(d)
    decreases |events|
  {
    if events != [] {
      var init, e := events[..|events| - 1], events[|events| - 1];
      var own, steps := OwnSteps(init, i, outward), OwnSteps(events, i, outward);
      UnfailingInit(own, steps);
      UnfailingIsWhole(init, i, outward);
      if |own| < |steps| {
        assert steps[|own|] == e.step;
        ExecAppends(own, e.step);
        WholeStep(Exec(own), e.step);
      } else {
        assert steps == own;
      }
    }
  }

  lemma UnfailingInit(own: seq<Step>, steps: seq<Step>)
    requires own <= steps && Unfailing(steps)
    ensures Unfailing(own)
  {
    assert forall k: nat | k < |own| :: own[k] == steps[k];
  }

  /** In a whole direction no step meets a channel that its reader has dropped. */
  lemma DropsDoNotShow(d: Direction, step: Step)
    requires Closed(d) && Whole(d) && !Drops(step)
    ensures Plain(Next(d, step)) == Next(Plain(d), step)
  {
  }

  /** A bridge that waited for both of its loops cuts nothing off when it returns. */
  lemma ReturnCutsNothing(p: Pair, e: Event, outward: bool)
    requires Closed(Side(p, outward)) && e.Returns?
    ensures Plain(Side(PairNext(Join, p, e), outward)) == Plain(Side(p, outward))
  {
  }

  /**
   Independence, which is what the join buys: a direction in which no loop fails goes exactly as if it
   ran alone, through its own steps only. Whatever the opposite direction or any other connection does,
   ends or suffers, and whenever the bridges return, it changes nothing here.
   */
  lemma {:induction false} DirectionsAreIndependent(events: seq<Event>, i: nat, outward: bool)
    requires i < |PairsExec(Join, events)| && Unfailing(OwnSteps(events, i, outward))
    ensures Plain(Side(PairsExec(Join, events)[i], outward)) == Exec(OwnSteps(events, i, outward))
    decreases |events|
  {
    var init, e := events[..|events| - 1], events[|events| - 1];
    var pairs, own := PairsExec(Join, init), OwnSteps(init, i, outward);
    OpenedCounts(Join, init);
    UnfailingInit(own, OwnSteps(events, i, outward));
    if i < |pairs| {
      DirectionsAreIndependent(init, i, outward);
      UnfailingIsWhole(init, i, outward);
      SideIsRun(Join, init, i, outward);
      RunKeeps(StepsOf(Join, init, i, outward));
      if !e.Accept? && e.i == i {
        OneEvent(pairs[i], e, outward, own);
      }
      if e.Moves? && e.i == i && e.outward == outward && !Drops(e.step) {
      } else {
        assert own + [] == own;
      }
    } else {
      NoOwnStepsBeforeOpening(init, i, outward);
      assert own + [] == own;
    }
  }

  lemma OneEvent(p: Pair, e: Event, outward: bool, own: seq<Step>)
    requires !e.Accept? && Closed(Side(p, outward)) && Plain(Side(p, outward)) == Exec(own) && Whole(Exec(own))
    ensures Plain(Side(PairNext(Join, p, e), outward))
         == if e.Moves? && e.outward == outward && !Drops(e.step) then Exec(own + [e.step]) else Exec(own)
  {
    if e.Returns? {
      ReturnCutsNothing(p, e, outward);
    } else if e.outward == outward && !Drops(e.step) {
      DropsDoNotShow(Side(p, outward), e.step);
      ExecAppends(own, e.step);
    }
  }

  lemma {:induction false} NoOwnStepsBeforeOpening(events: seq<Event>, i: nat, outward: bool)
    requires Opened(events) <= i
    ensures OwnSteps(events, i, outward) == []
    decreases |events|
  {
    if events != [] {
      NoOwnStepsBeforeOpening(events[..|events| - 1], i, outward);
    }
  }

  // ---------------------------------------------------------------- end to end

  /**
   End to end, over any number of connections and with bridges that return: the bytes delivered at each
   TCP end are a prefix of those sent at the other; at the end of the stream they are all of them exactly
   if nothing stayed behind. A direction in which no loop failed is never truncated, whatever became of
   the opposite one: its end means that everything arrived, and once its sender has closed and no step is
   left it has ended.
   */
  lemma TunnelIsFifo(events: seq<Event>, i: nat, outward: bool)
    requires i < |PairsExec(Join, events)|
    ensures var d := Side(PairsExec(Join, events)[i], outward);
            && d.delivered <= d.sent
            && (d.eof ==> (d.delivered == d.sent <==> Drained(d)))
            && (Unfailing(OwnSteps(events, i, outward)) ==>
                  && (d.eof ==> d.delivered == d.sent && d.entry.fin)
                  && (Stuck(d) && d.entry.fin ==> d.eof && d.delivered == d.sent))
  {
    var steps := StepsOf(Join, events, i, outward);
    SideIsRun(Join, events, i, outward);
    BytesAreConserved(steps);
    EndMeansAllIff(steps);
    DirectionDelivers(steps);
    if Unfailing(OwnSteps(events, i, outward)) {
      DirectionsAreIndependent(events, i, outward);
      UnfailingIsWhole(events, i, outward);
    }
  }

  /** Once both senders have closed and no carrying step is left, both bridges can return, failures or not. */
  lemma BridgesCanReturn(events: seq<Event>, i: nat, near: bool)
    requires i < |PairsExec(Join, events)|
    ensures var p := PairsExec(Join, events)[i];
            Stuck(p.out) && Stuck(p.back) && p.out.entry.fin && p.back.entry.fin ==> Ready(Join, p, near)
  {
    SideIsRun(Join, events, i, true);
    SideIsRun(Join, events, i, false);
    DirectionDelivers(StepsOf(Join, events, i, true));
    DirectionDelivers(StepsOf(Join, events, i, false));
  }

  lemma PairsExecAppends(policy: Policy, events: seq<Event>, e: Event)
    ensures PairsExec(policy, events + [e]) == PairsNext(policy, PairsExec(policy, events), e)
  {
    assert (events + [e])[..|events|] == events;
  }

  /** The near application has ended its side, its loop has passed that on, and the far one has sent something. */
  function HalfClosed(bytes: seq<U8>): seq<Event> {
    [Accept, Moves(0, true, Close)] + [Moves(0, true, FirstMoves(1))] + [Moves(0, true, FirstMoves(1))]
    + [Moves(0, false, Send(bytes))]
  }

  ghost function HalfClosedPair(bytes: seq<U8>): Pair {
    Pair(Idle().(entry := Channel([], true, false), first := Stopped(true, []), stream := Channel([], true, false)),
         Idle().(sent := bytes, entry := Channel(bytes, false, false)), false, false)
  }

  lemma HalfClosedRuns(policy: Policy, bytes: seq<U8>)
    ensures PairsExec(policy, HalfClosed(bytes)) == [HalfClosedPair(bytes)]
  {
    var e0 := [Accept];
    var e1 := [Accept, Moves(0, true, Close)];
    var e2 := e1 + [Moves(0, true, FirstMoves(1))];
    var e3 := e2 + [Moves(0, true, FirstMoves(1))];
    assert [] + [Accept] == e0 && e0 + [Moves(0, true, Close)] == e1 && [] + bytes == bytes;
    PairsExecAppends(policy, [], Accept);
    PairsExecAppends(policy, e0, Moves(0, true, Close));
    PairsExecAppends(policy, e1, Moves(0, true, FirstMoves(1)));
    PairsExecAppends(policy, e2, Moves(0, true, FirstMoves(1)));
    PairsExecAppends(policy, e3, Moves(0, false, Send(bytes)));
  }

  lemma UnfailingRun(bytes: seq<U8>)
    ensures var events := HalfClosed(bytes) + [Returns(0, true)] + [Moves(0, false, Receive(1))];
            Unfailing(OwnSteps(events, 0, true)) && Unfailing(OwnSteps(events, 0, false))
  {
    var events := HalfClosed(bytes) + [Returns(0, true)] + [Moves(0, false, Receive(1))];
    FailureFreeIsUnfailing(events, 0, true);
    FailureFreeIsUnfailing(events, 0, false);
  }

  /**
   Had the bridge returned when either of its loops was done, a clean half-close would cut the answer
   off: here no loop fails in either direction, the near application ends its side, and bytes sent to it
   are lost although it sees a proper end. The join does not let the bridge return there.
   */
  lemma EitherWouldTruncate(bytes: seq<U8>)
    requires bytes != []
    ensures var events := HalfClosed(bytes) + [Returns(0, true)] + [Moves(0, false, Receive(1))];
            var cut, kept := PairsExec(Either, events), PairsExec(Join, events);
            && Unfailing(OwnSteps(events, 0, true)) && Unfailing(OwnSteps(events, 0, false))
            && |cut| == |kept| == 1
            && cut[0].back.eof && cut[0].back.sent == bytes && cut[0].back.delivered == [] < bytes
            && !kept[0].nearDone && !kept[0].back.eof
  {
    var events := HalfClosed(bytes);
    HalfClosedRuns(Either, bytes);
    HalfClosedRuns(Join, bytes);
    PairsExecAppends(Either, events, Returns(0, true));
    PairsExecAppends(Join, events, Returns(0, true));
    PairsExecAppends(Either, events + [Returns(0, true)], Moves(0, false, Receive(1)));
    PairsExecAppends(Join, events + [Returns(0, true)], Moves(0, false, Receive(1)));
    UnfailingRun(bytes);
  }
}
