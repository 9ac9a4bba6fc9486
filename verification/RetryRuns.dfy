/** Runs of the retry loop: how far its bounds are reached, and what redirections and broken connections do. */
module RetryRuns {
  import opened Bytes
  import opened Cluster
  import opened Retry

  // An ASK to an address outside the table: the command goes, behind ASKING, back to the only master.
  method AskGoesElsewhere() returns (log: seq<Attempt>)
    ensures |log| >= 2 && log[0].outcome == Replied(Ask(Some(Node("10.0.0.2", 6379))))
    ensures log[0].target == Some(Node("10.0.0.1", 6379))
    ensures log[1].asking && log[1].target == Some(Node("10.0.0.1", 6379))
  {
    hide Play, After, Ran, SurveyedIfDue;
    var a, b := Node("10.0.0.1", 6379), Node("10.0.0.2", 6379);
    var client := new Client(1);
    client.masters := map[a := Master("a27a", Open, 0)];
    client.slot2node[0] := a;
    var world := World((_, _) => true, (i, _, _) => if i == 0 then Ask(Some(b)) else ErrorReply, (_, _) => Nodes([]));
    ghost var t := client.Contents();
    var c, ok := Command(Some(0), 0, world), false;
    log, ok := RedisCommand(client, c);
    Starts(c, t, log);
    PlayNext(t, log, 0);
    AskKeepsMasters(c, t, log[0]);
    RanTook(c, t, log, 1);
  }

  lemma AskKeepsMasters(c: Command, t: Tables, a: Attempt)
    requires c.slot.Some? ==> c.slot.value < |t.slots|
    requires Took(c, 0, t, None, a) && Handled(a.outcome).HrRedirect?
    ensures After(t, a).masters.Keys == t.masters.Keys && After(t, a).slots == t.slots
  {
  }

  // All nodes can be reached; the first attempt is refused with MOVED, the next succeed; and every master
  // tells this layout.
  function Moving(infos: seq<NodeInfo>): World {
    World((_, _) => true, (i, _, _) => if i == 0 then Moved else Success, (_, _) => Nodes(infos))
  }

  // The connections of the masters are sound but for those broken before.
  predicate NoNewFaults(t: Tables, u: Tables) {
    forall n :: n in u.masters && u.masters[n].link.Broken? ==> n in t.masters && t.masters[n].link.Broken?
  }

  lemma MovedFirst(slot: nat, infos: seq<NodeInfo>, t: Tables, a: Attempt)
    requires slot < |t.slots| && t.slots[slot] in t.masters && !t.masters[t.slots[slot]].link.Broken? && infos != []
    requires Took(Command(Some(slot), 0, Moving(infos)), 0, t, None, a)
    ensures a.target == Some(t.slots[slot]) && a.outcome == Replied(Moved)
    ensures a.listing == Some(infos)
    ensures forall n :: n in a.asked && a.asked[n].Broken? ==> n in t.masters && t.masters[n].link.Broken?
  {
    var met := Met(t, a);
    assert met.masters[t.slots[slot]].link == Open;
    assert Told(Moving(infos), 0, t.slots[slot], Open) == Some(infos);
  }

  lemma MovedRefreshed(infos: seq<NodeInfo>, t: Tables, a: Attempt, slot: nat)
    requires a.target.Some? && a.outcome == Replied(Moved) && a.listing == Some(infos) && slot < |t.slots|
    requires forall n :: n in a.asked && a.asked[n].Broken? ==> n in t.masters && t.masters[n].link.Broken?
    ensures var u := After(t, a);
            && u.masters.Keys == LiveNodes(infos) && NoNewFaults(t, u)
            && (Claimed(infos, slot) ==> u.slots[slot] == Claimant(infos, slot) && u.slots[slot] in u.masters)
  {
    hide LiveNodes, Claimed, Claimant, Listed;
    var met := Met(t, a);
    var surveyed := met.(masters := Relinked(met.masters, a.asked));
    assert NoNewFaults(t, surveyed);
    MastersAreLiveNodes(surveyed, infos, a.reached);
    SlotsLeadToMasters(surveyed, infos, a.reached, slot);
    forall n
      ensures n in LiveNodes(infos) && n !in surveyed.masters ==> !After(t, a).masters[n].link.Broken?
    {
      ListedLink(surveyed, infos, a.reached, n);
    }
  }

  // At an owner with a sound connection the command succeeds, and nothing but its connection changes.
  lemma SuccessEnds(c: Command, i: nat, t: Tables, a: Attempt)
    requires c.slot.Some? && c.slot.value < |t.slots| && t.slots[c.slot.value] in t.masters
    requires !t.masters[t.slots[c.slot.value]].link.Broken? && Took(c, i, t, None, a)
    requires forall n :: c.world.connects(i, n) && c.world.replies(i, n, false) == Success
    ensures a.outcome == Replied(Success) && !Goes(i, c.numRetries, a.outcome)
    ensures var u := After(t, a);
            u.masters.Keys == t.masters.Keys && u.slots == t.slots && NoNewFaults(t, u)
  {
    assert a.asked == map[];
  }

  // A command that meets such a world refreshes the tables and then succeeds.
  lemma MovedThenSuccess(slot: nat, infos: seq<NodeInfo>, t: Tables, log: seq<Attempt>)
    requires slot < |t.slots| && Claimed(infos, slot)
    requires t.slots[slot] in t.masters && !t.masters[t.slots[slot]].link.Broken?
    requires Claimant(infos, slot) in t.masters ==> !t.masters[Claimant(infos, slot)].link.Broken?
    requires Ran(Command(Some(slot), 0, Moving(infos)), t, log)
    ensures |log| == 2 && Succeeded(log) && log[0].listing == Some(infos)
    ensures var u := Play(t, log);
            && u.masters.Keys == LiveNodes(infos) && NoNewFaults(t, u)
            && (forall s: nat :: s < |t.slots| && Claimed(infos, s) ==> u.slots[s] == Claimant(infos, s))
  {
    hide After, Took, Ran, LiveNodes, Claimed, Claimant, NoNewFaults, Moving;
    var c := Command(Some(slot), 0, Moving(infos));
    assert infos != [] by { ClaimedIsNotEmpty(infos, slot); }
    Starts(c, t, log);
    MovedFirst(slot, infos, t, log[0]);
    var u := After(t, log[0]);
    forall s: nat | s < |t.slots|
      ensures u.masters.Keys == LiveNodes(infos) && NoNewFaults(t, u)
      ensures Claimed(infos, s) ==> u.slots[s] == Claimant(infos, s) && u.slots[s] in u.masters
    {
      MovedRefreshed(infos, t, log[0], s);
    }
    PlayNext(t, log, 0);
    RanTook(c, t, log, 1);
    SoundOwner(t, u, u.slots[slot]);
    AllSucceed(infos);
    SuccessEnds(c, 1, u, log[1]);
    RanTook(c, t, log, 1);
    PlayNext(t, log, 1);
    assert log[..2] == log;
    FaultsTransitive(t, u, Play(t, log));
  }

  lemma AllSucceed(infos: seq<NodeInfo>)
    ensures forall n :: Moving(infos).connects(1, n) && Moving(infos).replies(1, n, false) == Success
  {
  }

  lemma ClaimedIsNotEmpty(infos: seq<NodeInfo>, slot: int)
    requires Claimed(infos, slot)
    ensures infos != []
  {
  }

  lemma SoundOwner(t: Tables, u: Tables, n: Node)
    requires NoNewFaults(t, u) && n in u.masters && (n in t.masters ==> !t.masters[n].link.Broken?)
    ensures !u.masters[n].link.Broken?
  {
  }

  lemma FaultsTransitive(t: Tables, u: Tables, v: Tables)
    requires NoNewFaults(t, u) && NoNewFaults(u, v)
    ensures NoNewFaults(t, v)
  {
  }

  // The layouts told while the first node has failed, and when it is back.
  function WithoutFirst(a: Node, b: Node, c: Node): seq<NodeInfo> {
    [NodeInfo(a, "a27a", true, false, true, []),
     NodeInfo(b, "b38b", true, false, false, [(0, 0)]), NodeInfo(c, "c49c", true, false, false, [(1, 1)])]
  }

  function WithFirst(a: Node, b: Node): seq<NodeInfo> {
    [NodeInfo(a, "a27a", true, false, false, [(0, 0)]), NodeInfo(b, "b38b", true, false, false, [(1, 1)])]
  }

  lemma LayoutsTell(a: Node, b: Node, c: Node)
    requires a != b && b != c && a != c
    ensures var infos := WithoutFirst(a, b, c);
            LiveNodes(infos) == {b, c} && Claimed(infos, 1) && Claimant(infos, 1) == c && AllInRange(infos, 2)
    ensures var infos := WithFirst(a, b);
            && LiveNodes(infos) == {a, b} && AllInRange(infos, 2)
            && Claimed(infos, 0) && Claimant(infos, 0) == a && Claimed(infos, 1) && Claimant(infos, 1) == b
  {
    var x, y := WithoutFirst(a, b, c), WithFirst(a, b);
    assert x[1].node == b && x[2].node == c && Live(x[1]) && Live(x[2]) && !Live(x[0]);
    assert x[2].slots[0] == (1, 1) && Claims(x[2], 1);
    assert y[0].node == a && y[1].node == b && Live(y[0]) && Live(y[1]);
    assert y[0].slots[0] == (0, 0) && Claims(y[0], 0) && y[1].slots[0] == (1, 1) && Claims(y[1], 1);
    assert !Claims(y[1], 0);
    assert y[..1][0] == y[0];
  }

  // All nodes can be reached and every command succeeds.
  function Calm(): World {
    World((_, _) => true, (_, _, _) => Success, (_, _) => Nodes([]))
  }

  lemma CalmSucceeds(slot: nat, t: Tables, log: seq<Attempt>)
    requires slot < |t.slots| && t.slots[slot] in t.masters && !t.masters[t.slots[slot]].link.Broken?
    requires Ran(Command(Some(slot), 0, Calm()), t, log)
    ensures Succeeded(log) && NoNewFaults(t, Play(t, log)) && Play(t, log).masters.Keys == t.masters.Keys
  {
    hide After, Took, Ran, NoNewFaults;
    var c := Command(Some(slot), 0, Calm());
    Starts(c, t, log);
    SuccessEnds(c, 0, t, log[0]);
    PlayNext(t, log, 0);
    assert log[..1] == log;
  }

  // A stuck master recovers: commands for another slot refresh the tables from a listing that drops it and
  // then from one that has it back, over a new connection.
  method Recovers() returns (ghost t: Tables, commands: seq<Command>, logs: seq<seq<Attempt>>)
    ensures |commands| == 4 && commands[0] == commands[3] && commands[0].slot == Some(0)
    ensures SlotsExist(commands, |t.slots|) && Session(t, commands, logs)
    ensures t.slots[0] in Stuck(t) && t.slots[0] !in Stuck(Play(t, Flat(logs)))
    ensures !Succeeded(logs[0]) && Succeeded(logs[1]) && Succeeded(logs[2]) && Succeeded(logs[3])
  {
    hide Ran, Play, Succeeded, Stuck, LayoutsInRange, WithoutFirst, WithFirst;
    var a, b, c := Node("10.0.0.1", 6379), Node("10.0.0.2", 6379), Node("10.0.0.3", 6379);
    assert a.host[7] != b.host[7] && b.host[7] != c.host[7] && a.host[7] != c.host[7];
    var client := new Client(2);
    client.masters := map[a := Master("a27a", Broken(Other), 0), b := Master("b38b", Open, 0)];
    client.slot2node[0], client.slot2node[1] := a, b;
    t := client.Contents();
    commands := Outage(a, b, c);
    OutageInRange(a, b, c);
    logs := RunSession(client, commands);
    Recovery(a, b, c, t, logs);
  }

  function Outage(a: Node, b: Node, c: Node): (commands: seq<Command>)
    ensures |commands| == 4 && SlotsExist(commands, 2)
  {
    var calm := Command(Some(0), 0, Calm());
    [calm, Command(Some(1), 0, Moving(WithoutFirst(a, b, c))), Command(Some(1), 0, Moving(WithFirst(a, b))), calm]
  }

  lemma OutageInRange(a: Node, b: Node, c: Node)
    requires a != b && b != c && a != c
    ensures forall k :: 0 <= k < 4 ==> LayoutsInRange(Outage(a, b, c)[k].world, 2)
  {
    hide WithoutFirst, WithFirst;
    LayoutsTell(a, b, c);
  }

  lemma Recovery(a: Node, b: Node, c: Node, t: Tables, logs: seq<seq<Attempt>>)
    requires a != b && b != c && a != c && t.slots == [a, b] && t.masters.Keys == {a, b}
    requires t.masters[a].link == Broken(Other) && t.masters[b].link == Open
    requires |logs| == 4 && Session(t, Outage(a, b, c), logs)
    ensures t.slots[0] in Stuck(t) && t.slots[0] !in Stuck(Play(t, Flat(logs)))
    ensures !Succeeded(logs[0]) && Succeeded(logs[1]) && Succeeded(logs[2]) && Succeeded(logs[3])
  {
    hide Ran, Play, Succeeded, WithoutFirst, WithFirst, Moving, Calm, Flat, Session;
    var commands := Outage(a, b, c);
    SessionStep(t, commands, logs, 0);
    FailsAtOnce(commands[0], t, logs[0]);
    SessionStep(t, commands, logs, 1);
    SessionStep(t, commands, logs, 2);
    SessionStep(t, commands, logs, 3);
    assert logs[..4] == logs;
    DroppedAndBack(a, b, c, t, logs[1], logs[2]);
    var v := Play(Play(t, logs[1]), logs[2]);
    CalmSucceeds(0, v, logs[3]);
    SoundOwner(v, Play(v, logs[3]), a);
  }

  lemma DroppedAndBack(a: Node, b: Node, c: Node, t: Tables, x: seq<Attempt>, y: seq<Attempt>)
    requires a != b && b != c && a != c && t.slots == [a, b] && t.masters.Keys == {a, b}
    requires t.masters[b].link == Open
    requires Ran(Command(Some(1), 0, Moving(WithoutFirst(a, b, c))), t, x)
    requires Ran(Command(Some(1), 0, Moving(WithFirst(a, b))), Play(t, x), y)
    ensures var v := Play(Play(t, x), y);
            && Succeeded(x) && Succeeded(y)
            && v.slots[0] == a && a in v.masters && !v.masters[a].link.Broken?
  {
    hide Ran, Play, Succeeded, LiveNodes, Claimed, Claimant, WithoutFirst, WithFirst, Moving, NoNewFaults;
    LayoutsTell(a, b, c);
    MovedThenSuccess(1, WithoutFirst(a, b, c), t, x);
    var u := Play(t, x);
    SoundOwner(t, u, b);
    SoundOwner(t, u, c);
    MovedThenSuccess(1, WithFirst(a, b), u, y);
    SoundOwner(u, Play(u, y), a);
  }

  lemma SessionStep(t: Tables, commands: seq<Command>, logs: seq<seq<Attempt>>, k: nat)
    requires SlotsExist(commands, |t.slots|) && Session(t, commands, logs) && k < |commands|
    ensures var now := Play(t, Flat(logs[..k]));
            && (k == 0 ==> now == t)
            && Ran(commands[k], now, logs[k]) && Play(t, Flat(logs[..k + 1])) == Play(now, logs[k])
  {
    hide Ran, After;
    PlayOneMore(t, logs, k);
  }

  lemma PlayOneMore(t: Tables, logs: seq<seq<Attempt>>, k: nat)
    requires k < |logs|
    ensures Play(t, Flat(logs[..k + 1])) == Play(Play(t, Flat(logs[..k])), logs[k])
  {
    hide Play, Flat;
    assert logs[..k + 1] == logs[..k] + [logs[k]];
    FlatStep(logs[..k], logs[k]);
    PlayConcat(t, Flat(logs[..k]), logs[k]);
  }

  // The same reply to every command, and no master tells a layout.
  function Always(reply: Reply): World {
    World((_, _) => true, (_, _, _) => reply, (_, _) => Nodes([]))
  }

  // One master, which owns the only slot and whose connection is sound.
  predicate Single(t: Tables, n: Node) {
    t.masters.Keys == {n} && !t.masters[n].link.Broken? && t.slots == [n]
  }

  lemma SameAgain(c: Command, i: nat, t: Tables, ask: Option<Node>, a: Attempt, n: Node, reply: Reply)
    requires c.slot == Some(0) && c.world == Always(reply) && Single(t, n) && reply != Failed(Other)
    requires Took(c, i, t, ask, a)
    ensures a.outcome == Replied(reply) && Single(After(t, a), n)
  {
    var met := Met(t, a);
    assert a.target == Some(n) && !met.masters[n].link.Broken?;
    assert a.listing.None?;
  }

  lemma {:induction false} SameThroughout(c: Command, t: Tables, log: seq<Attempt>, n: Node, reply: Reply, k: nat)
    requires c.slot == Some(0) && c.world == Always(reply) && Single(t, n) && reply != Failed(Other)
    requires Ran(c, t, log) && k <= |log|
    ensures Single(Play(t, log[..k]), n) && forall i :: 0 <= i < k ==> log[i].outcome == Replied(reply)
  {
    hide Ran, Took, After;
    if k == 0 {
      Starts(c, t, log);
    } else {
      SameThroughout(c, t, log, n, reply, k - 1);
      RanTook(c, t, log, k - 1);
      PlayNext(t, log, k - 1);
      SameAgain(c, k - 1, Play(t, log[..k - 1]), AskBefore(log, k - 1), log[k - 1], n, reply);
    }
  }

  lemma RunLength(c: Command, t: Tables, log: seq<Attempt>, n: Node, reply: Reply)
    requires c.slot == Some(0) && c.world == Always(reply) && Single(t, n) && reply != Failed(Other)
    requires Ran(c, t, log)
    ensures log != [] && forall i :: 0 <= i < |log| ==> log[i].outcome == Replied(reply)
    ensures forall i :: 0 <= i < |log| ==> (i + 1 < |log| <==> Goes(i, c.numRetries, Replied(reply)))
  {
    hide Ran, Goes;
    Starts(c, t, log);
    SameThroughout(c, t, log, n, reply, |log|);
    forall i | 0 <= i < |log|
      ensures i + 1 < |log| <==> Goes(i, c.numRetries, Replied(reply))
    {
      RanTook(c, t, log, i);
    }
  }

  // Both bounds on the length and the executions of a run are reached.
  method BoundsAreReached(numRetries: nat)
    returns (ghost t: Tables, x: Command, longest: seq<Attempt>, y: Command, busiest: seq<Attempt>)
    ensures |t.slots| == 1 && x.slot == y.slot == Some(0) && x.numRetries == y.numRetries == numRetries
    ensures Ran(x, t, longest) && |longest| == Max(2, numRetries) + 2
    ensures Ran(y, t, busiest) && Executions(busiest) == numRetries + 1
  {
    hide Ran, Play;
    var n := Node("10.0.0.1", 6379);
    var m := Master("a27a", Open, 0);
    var refusal := if numRetries < 2 then Ask(Some(n)) else Moved;
    x, y := Command(Some(0), numRetries, Always(refusal)), Command(Some(0), numRetries, Always(Failed(Eof)));
    var first := new Client(1);
    var second := new Client(1);
    first.masters, second.masters := map[n := m], map[n := m];
    first.slot2node[0], second.slot2node[0] := n, n;
    t := first.Contents();
    assert second.Contents() == t;
    var ok;
    longest, ok := RedisCommand(first, x);
    busiest, ok := RedisCommand(second, y);
    RunLength(x, t, longest, n, refusal);
    RunLength(y, t, busiest, n, Failed(Eof));
    RunsEndWhereTheyMust(longest, busiest, numRetries, refusal);
    AllRan(busiest);
  }

  lemma RunsEndWhereTheyMust(longest: seq<Attempt>, busiest: seq<Attempt>, numRetries: nat, refusal: Reply)
    requires longest != [] && busiest != []
    requires if numRetries < 2 then refusal.Ask? && refusal.to.Some? else refusal.Moved?
    requires forall i :: 0 <= i < |longest| ==> (i + 1 < |longest| <==> Goes(i, numRetries, Replied(refusal)))
    requires forall i :: 0 <= i < |busiest| ==> (i + 1 < |busiest| <==> Goes(i, numRetries, Replied(Failed(Eof))))
    ensures |longest| == Max(2, numRetries) + 2 && |busiest| == numRetries + 1
  {
    var last := |longest| - 1;
    assert !Goes(last, numRetries, Replied(refusal));
    assert last > 0 ==> Goes(last - 1, numRetries, Replied(refusal));
    var end := |busiest| - 1;
    assert !Goes(end, numRetries, Replied(Failed(Eof)));
    assert end > 0 ==> Goes(end - 1, numRetries, Replied(Failed(Eof)));
  }

  // --- a failover ---

  // The owner of the slot has died, and the other master knows who took over.
  function Failover(dead: Node, other: Node, promoted: Node): World {
    World((_, n) => n != dead, (_, _, _) => Success,
          (_, _) => Nodes([NodeInfo(other, "b38b", true, false, false, []),
                           NodeInfo(promoted, "c49c", true, false, false, [(0, 0)])]))
  }

  function AfterFailures(dead: Node, other: Node, k: nat): Tables {
    Tables(map[dead := Master("a27a", Closed, k), other := Master("b38b", Open, 0)], map[], [dead])
  }

  lemma OneFailure(c: Command, i: nat, dead: Node, other: Node, promoted: Node, k: nat, a: Attempt)
    requires c.slot == Some(0) && c.world == Failover(dead, other, promoted) && dead != other && k < 5
    requires Took(c, i, AfterFailures(dead, other, k), None, a)
    ensures a.target == Some(dead) && a.outcome == NotConnected
    ensures After(AfterFailures(dead, other, k), a) == AfterFailures(dead, other, k + 1)
  {
    var t := AfterFailures(dead, other, k);
    assert !Due(c.slot, c.numRetries, i, Met(t, a), a);
    NoneRelinked(Met(t, a).masters);
  }

  lemma {:induction false} FiveFailures(c: Command, dead: Node, other: Node, promoted: Node, log: seq<Attempt>, k: nat)
    requires c.slot == Some(0) && c.world == Failover(dead, other, promoted) && dead != other && c.numRetries == 10
    requires k <= 5 && Ran(c, AfterFailures(dead, other, 0), log)
    ensures |log| > k && Play(AfterFailures(dead, other, 0), log[..k]) == AfterFailures(dead, other, k)
    ensures AskBefore(log, k) == None
    ensures forall i :: 0 <= i < k ==> log[i].target == Some(dead) && log[i].outcome == NotConnected
  {
    hide Ran, Took, After, Play, AfterFailures, Failover;
    var t := AfterFailures(dead, other, 0);
    Sizes(dead, other);
    Starts(c, t, log);
    if k > 0 {
      FiveFailures(c, dead, other, promoted, log, k - 1);
      RanTook(c, t, log, k - 1);
      PlayNext(t, log, k - 1);
      OneFailure(c, k - 1, dead, other, promoted, k - 1, log[k - 1]);
    }
  }

  lemma Sizes(dead: Node, other: Node)
    ensures |AfterFailures(dead, other, 0).slots| == 1
  {
  }

  // The sixth failure makes the client ask the other master.
  lemma SixthSurvey(c: Command, dead: Node, other: Node, promoted: Node, a: Attempt)
    requires c.slot == Some(0) && c.world == Failover(dead, other, promoted) && c.numRetries == 10 && dead != other
    requires Took(c, 5, AfterFailures(dead, other, 5), None, a)
    ensures a.target == Some(dead) && a.outcome == NotConnected
    ensures a.listing == Some(c.world.layouts(5, other).infos)
  {
    var met := Met(AfterFailures(dead, other, 5), a);
    assert met.masters[dead].connErrors == 6 && met.masters[other].link == Open;
    assert Told(c.world, 5, other, Open).Some?;
    assert Due(c.slot, c.numRetries, 5, met, a) && Skipped(a) == {dead};
    SurveyTells(c.world, 5, met.masters, {dead}, a);
  }

  lemma SixthFailure(c: Command, dead: Node, other: Node, promoted: Node, a: Attempt)
    requires c.slot == Some(0) && c.world == Failover(dead, other, promoted) && c.numRetries == 10
    requires dead != other && other != promoted && dead != promoted
    requires Took(c, 5, AfterFailures(dead, other, 5), None, a)
    ensures a.target == Some(dead) && a.outcome == NotConnected && a.listing.Some?
    ensures var u := After(AfterFailures(dead, other, 5), a);
            |u.slots| == 1 && u.slots[0] == promoted && promoted in u.masters && !u.masters[promoted].link.Broken?
  {
    hide Refresh, LiveNodes, Took, Listed;
    SixthSurvey(c, dead, other, promoted, a);
    var met := Met(AfterFailures(dead, other, 5), a);
    var surveyed := met.(masters := Relinked(met.masters, a.asked));
    var infos := a.listing.value;
    assert infos[1].slots[0] == (0, 0);
    assert Around(infos[1].slots, 0);
    SlotGoesToLast(surveyed, infos, a.reached, 0);
    assert promoted !in surveyed.masters;
    ListedLink(surveyed, infos, a.reached, promoted);
    RefreshKeepsListed(surveyed, infos, a.reached, promoted);
  }

  // A command for the slot of a dead master reaches the promoted one with its seventh attempt.
  method FailoverIsNoticed() returns (log: seq<Attempt>)
    ensures |log| == 7 && Succeeded(log)
    ensures forall i :: 0 <= i < 6 ==> log[i].target == Some(Node("10.0.0.1", 6379)) && log[i].outcome == NotConnected
    ensures log[6].target == Some(Node("10.0.0.3", 6379))
  {
    hide Ran, Took, After, Play, Failover, AfterFailures;
    var dead, other, promoted := Node("10.0.0.1", 6379), Node("10.0.0.2", 6379), Node("10.0.0.3", 6379);
    assert dead.host[7] != other.host[7] && other.host[7] != promoted.host[7] && dead.host[7] != promoted.host[7];
    var client := new Client(1);
    client.masters := map[dead := Master("a27a", Closed, 0), other := Master("b38b", Open, 0)];
    client.slot2node[0] := dead;
    var c, ok := Command(Some(0), 10, Failover(dead, other, promoted)), false;
    StartOfFailover(client.Contents(), dead, other, promoted);
    log, ok := RedisCommand(client, c);
    FailoverRun(c, dead, other, promoted, log);
  }

  lemma StartOfFailover(t: Tables, dead: Node, other: Node, promoted: Node)
    requires t.slots == [dead] && t.ids == map[]
    requires t.masters == map[dead := Master("a27a", Closed, 0), other := Master("b38b", Open, 0)]
    ensures t == AfterFailures(dead, other, 0) && LayoutsInRange(Failover(dead, other, promoted), 1)
  {
  }

  lemma FailoverRun(c: Command, dead: Node, other: Node, promoted: Node, log: seq<Attempt>)
    requires c.slot == Some(0) && c.world == Failover(dead, other, promoted) && c.numRetries == 10
    requires dead != other && other != promoted && dead != promoted
    requires Ran(c, AfterFailures(dead, other, 0), log)
    ensures |log| == 7 && Succeeded(log)
    ensures forall i :: 0 <= i < 6 ==> log[i].target == Some(dead) && log[i].outcome == NotConnected
    ensures log[6].target == Some(promoted)
  {
    hide Ran, Took, After, Play, AfterFailures, Failover;
    var t := AfterFailures(dead, other, 0);
    Sizes(dead, other);
    FiveFailures(c, dead, other, promoted, log, 5);
    RanTook(c, t, log, 5);
    SixthFailure(c, dead, other, promoted, log[5]);
    PlayNext(t, log, 5);
    RanTook(c, t, log, 6);
    PromotedAnswers(c, dead, other, promoted, Play(t, log[..6]), log[6]);
  }

  lemma PromotedAnswers(c: Command, dead: Node, other: Node, promoted: Node, t: Tables, a: Attempt)
    requires c.slot == Some(0) && c.world == Failover(dead, other, promoted) && dead != promoted
    requires |t.slots| == 1 && t.slots[0] == promoted && promoted in t.masters && !t.masters[promoted].link.Broken?
    requires Took(c, 6, t, None, a)
    ensures a.target == Some(promoted) && a.outcome == Replied(Success)
  {
  }
}
