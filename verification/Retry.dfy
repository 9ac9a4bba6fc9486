/** The loop that runs one command against a cluster: routing, redirection, refresh and bounded retries. */
module Retry {
  import opened Bytes
  import opened Cluster

  // What came back for a command: a reply, or an error of the connection.
  datatype Reply = Success | Failed(fault: Fault) | ErrorReply | Clusterdown | Ask(to: Option<Node>) | Moved

  datatype Outcome = NoNode | NotConnected | Replied(reply: Reply)

  // What came back for CLUSTER NODES. An error reply and one that cannot be read list nothing.
  datatype Layout = Nodes(infos: seq<NodeInfo>) | Lost(fault: Fault)

  datatype HandleResult = HrSuccess | HrError | HrRetryUncond | HrReconnCond | HrReconnUncond | HrRedirect

  // The servers and the network, by attempt number: whether a node accepts a connection, what it answers
  // to the command (preceded or not by ASKING), and what it answers to CLUSTER NODES.
  datatype World = World(connects: (nat, Node) -> bool,
                         replies: (nat, Node, bool) -> Reply,
                         layouts: (nat, Node) -> Layout)

  // One turn of the loop: the node chosen, whether ASKING was sent first, what happened, the masters then
  // asked for CLUSTER NODES with what it made of their connections, the listing the tables were refreshed
  // from, and which of the masters listed accept a connection.
  datatype Attempt = Attempt(target: Option<Node>, asking: bool, outcome: Outcome,
                             asked: map<Node, Link>, listing: Option<seq<NodeInfo>>, reached: set<Node>)

  // A command: its slot (none outside a cluster), the retries allowed, and what it meets.
  datatype Command = Command(slot: Option<nat>, numRetries: int, world: World)

  const MOVED_ERRORS: nat := 2019
  const UINT_RANGE: nat := 0x1_0000_0000

  function Max(x: int, y: int): int {
    if x < y then y else x
  }

  predicate NeedRefreshMaster(connErrors: nat) {
    (connErrors > 3 && connErrors % 3 == 0) || connErrors > 2018
  }

  // --- what an attempt does to the tables ---

  function Handled(o: Outcome): HandleResult {
    match o
    case NoNode => HrError
    case NotConnected => HrReconnUncond
    case Replied(Success) => HrSuccess
    case Replied(Failed(Other)) => HrError
    case Replied(Failed(_)) => HrReconnCond
    case Replied(Clusterdown) => HrRetryUncond
    case Replied(Moved) => HrRetryUncond
    case Replied(Ask(_)) => HrRedirect
    case Replied(ErrorReply) => HrError
  }

  // A reply ends a run of failures; a broken connection adds to it; MOVED asks for a refresh.
  function ErrorsAfter(connErrors: nat, reply: Reply): nat {
    match reply
    case Moved => MOVED_ERRORS
    case Failed(Other) => connErrors
    case Failed(_) => (connErrors + 1) % UINT_RANGE
    case _ => 0
  }

  // The master a command was sent to: an error of input or output closes its connection, any other error
  // leaves it open and broken.
  function Touched(m: Master, o: Outcome): Master {
    match o
    case NoNode => m
    case NotConnected => m.(link := Closed, connErrors := (m.connErrors + 1) % UINT_RANGE)
    case Replied(reply) =>
      Master(m.id, if !reply.Failed? then Open else if reply.fault.Other? then Broken(Other) else Closed,
             ErrorsAfter(m.connErrors, reply))
  }

  function Met(t: Tables, a: Attempt): (u: Tables)
    ensures u.masters.Keys == t.masters.Keys && u.slots == t.slots
  {
    if a.target.Some? && a.target.value in t.masters
    then t.(masters := t.masters[a.target.value := Touched(t.masters[a.target.value], a.outcome)]) else t
  }

  function Relinked(masters: map<Node, Master>, asked: map<Node, Link>): (r: map<Node, Master>)
    ensures r.Keys == masters.Keys
  {
    map n | n in masters :: if n in asked then masters[n].(link := asked[n]) else masters[n]
  }

  function After(t: Tables, a: Attempt): (u: Tables)
    ensures |u.slots| == |t.slots|
  {
    var met := Met(t, a);
    var surveyed := met.(masters := Relinked(met.masters, a.asked));
    if a.listing.Some? then Refresh(surveyed, a.listing.value, a.reached) else surveyed
  }

  // The tables after all attempts of a log.
  function Play(t: Tables, log: seq<Attempt>): (u: Tables)
    ensures |u.slots| == |t.slots|
  {
    if log == [] then t else After(Play(t, log[..|log| - 1]), log[|log| - 1])
  }

  // --- which attempts there are ---

  // Attempt number i is followed by another.
  predicate Goes(i: nat, numRetries: int, o: Outcome) {
    match o
    case NoNode => false
    case NotConnected => i == 0 || i <= numRetries
    case Replied(Ask(to)) => to.Some? && i <= 2
    case Replied(Clusterdown) => i <= numRetries
    case Replied(Moved) => i <= numRetries
    case Replied(Failed(Other)) => false
    case Replied(Failed(_)) => i < numRetries
    case _ => false
  }

  predicate Continued(numRetries: int, log: seq<Attempt>) {
    forall i :: 0 <= i < |log| ==> Goes(i, numRetries, log[i].outcome)
  }

  // The address a command is to be sent to.
  function Owner(slot: Option<nat>, ask: Option<Node>, slots: seq<Node>): Option<Node>
    requires slot.Some? ==> slot.value < |slots|
  {
    if slot.None? then None else if ask.Some? then ask else Some(slots[slot.value])
  }

  // Where an attempt goes: to the node wanted if it is known, to any known master otherwise.
  predicate Routed(slot: Option<nat>, t: Tables, ask: Option<Node>, a: Attempt)
    requires slot.Some? ==> slot.value < |t.slots|
  {
    var owner := Owner(slot, ask, t.slots);
    && a.asking == ask.Some?
    && (a.target.None? <==> t.masters.Keys == {})
    && (a.target.Some? ==> a.target.value in t.masters)
    && (owner.Some? && owner.value in t.masters ==> a.target == owner)
  }

  // What a command meets at a master. A closed connection is made first; on a broken one nothing is sent
  // and its error is reported again.
  function Seen(world: World, i: nat, node: Node, link: Link, asking: bool): Outcome {
    if link.Broken? then Replied(Failed(link.fault))
    else if link.Closed? && !world.connects(i, node) then NotConnected
    else Replied(world.replies(i, node, asking))
  }

  predicate Heard(world: World, i: nat, t: Tables, a: Attempt) {
    a.outcome == if a.target.Some? && a.target.value in t.masters
                 then Seen(world, i, a.target.value, t.masters[a.target.value].link, a.asking) else NoNode
  }

  // What asking a master for the layout makes of its connection, and the layout it tells.
  function LinkAsked(world: World, i: nat, node: Node, link: Link): Link {
    if link.Broken? || (link.Closed? && !world.connects(i, node)) then link
    else if world.layouts(i, node).Lost? then Broken(world.layouts(i, node).fault) else Open
  }

  function Told(world: World, i: nat, node: Node, link: Link): (infos: Option<seq<NodeInfo>>)
    ensures infos.Some? ==> LinkAsked(world, i, node, link) == Open
  {
    if link.Broken? || (link.Closed? && !world.connects(i, node)) then None
    else match world.layouts(i, node)
      case Nodes(infos) => if infos == [] then None else Some(infos)
      case Lost(_) => None
  }

  // The masters are asked in some order, except those to skip, until one tells the layout.
  predicate Surveyed(world: World, i: nat, masters: map<Node, Master>, skip: set<Node>, a: Attempt) {
    && a.asked.Keys <= masters.Keys - skip
    && (forall n :: n in a.asked ==> a.asked[n] == LinkAsked(world, i, n, masters[n].link))
    && match a.listing
       case None => a.asked.Keys == masters.Keys - skip && Silent(world, i, masters, a.asked.Keys)
       case Some(infos) =>
         && (exists n :: n in a.asked && Told(world, i, n, masters[n].link) == a.listing
                         && Silent(world, i, masters, a.asked.Keys - {n}))
         && a.reached == Reachable(world, i, infos)
  }

  predicate Silent(world: World, i: nat, masters: map<Node, Master>, nodes: set<Node>) {
    forall n :: n in nodes && n in masters ==> Told(world, i, n, masters[n].link).None?
  }

  function Reachable(world: World, i: nat, infos: seq<NodeInfo>): set<Node> {
    set n | n in LiveNodes(infos) && world.connects(i, n)
  }

  // The node's failures call for a refresh before the next attempt.
  predicate Due(slot: Option<nat>, numRetries: int, i: nat, t: Tables, a: Attempt) {
    && slot.Some? && a.target.Some? && a.target.value in t.masters
    && Goes(i, numRetries, a.outcome) && !Handled(a.outcome).HrRedirect?
    && NeedRefreshMaster(t.masters[a.target.value].connErrors)
  }

  // A node that could not be reached is not asked.
  function Skipped(a: Attempt): set<Node> {
    if a.target.Some? && (Handled(a.outcome).HrReconnCond? || Handled(a.outcome).HrReconnUncond?)
    then {a.target.value} else {}
  }

  predicate SurveyedIfDue(slot: Option<nat>, numRetries: int, world: World, i: nat, t: Tables, a: Attempt) {
    if Due(slot, numRetries, i, t, a) then Surveyed(world, i, t.masters, Skipped(a), a)
    else a.asked == map[] && a.listing.None?
  }

  // Attempt number i, from these tables.
  predicate Took(c: Command, i: nat, t: Tables, ask: Option<Node>, a: Attempt)
    requires c.slot.Some? ==> c.slot.value < |t.slots|
  {
    && Routed(c.slot, t, ask, a) && Heard(c.world, i, t, a)
    && SurveyedIfDue(c.slot, c.numRetries, c.world, i, Met(t, a), a)
  }

  // Where the attempt before number i told the client to ask.
  function AskBefore(log: seq<Attempt>, i: nat): Option<Node>
    requires i <= |log|
  {
    if i > 0 && log[i - 1].outcome.Replied? && log[i - 1].outcome.reply.Ask? then log[i - 1].outcome.reply.to
    else None
  }

  predicate Going(c: Command, t: Tables, log: seq<Attempt>)
    requires c.slot.Some? ==> c.slot.value < |t.slots|
  {
    forall i :: 0 <= i < |log| ==> Took(c, i, Play(t, log[..i]), AskBefore(log, i), log[i])
  }

  // The log of a command.
  predicate Ran(c: Command, t: Tables, log: seq<Attempt>)
    requires c.slot.Some? ==> c.slot.value < |t.slots|
  {
    && log != [] && Going(c, t, log) && Continued(c.numRetries, log[..|log| - 1])
    && !Goes(|log| - 1, c.numRetries, log[|log| - 1].outcome)
  }

  predicate Succeeded(log: seq<Attempt>) {
    log != [] && log[|log| - 1].outcome == Replied(Success)
  }

  lemma GoingStep(c: Command, t: Tables, log: seq<Attempt>, a: Attempt)
    requires c.slot.Some? ==> c.slot.value < |t.slots|
    requires Going(c, t, log) && Took(c, |log|, Play(t, log), AskBefore(log, |log|), a)
    ensures Going(c, t, log + [a]) && Play(t, log + [a]) == After(Play(t, log), a)
  {
    hide Took, After;
    var more := log + [a];
    assert more[..|log|] == log;
    forall i | 0 <= i < |more|
      ensures Took(c, i, Play(t, more[..i]), AskBefore(more, i), more[i])
    {
      assert more[..i] == log[..i];
      assert i == |log| ==> log[..i] == log;
    }
  }

  // --- bounds ---

  // The server may have executed the command: anything but a failed connection and the three refusals.
  predicate MayHaveRun(o: Outcome) {
    o.Replied? && !o.reply.Clusterdown? && !o.reply.Ask? && !o.reply.Moved?
  }

  function Executions(log: seq<Attempt>): nat {
    if log == [] then 0
    else Executions(log[..|log| - 1]) + if MayHaveRun(log[|log| - 1].outcome) then 1 else 0
  }

  lemma {:induction false} ContinuedExecutions(numRetries: int, log: seq<Attempt>)
    requires Continued(numRetries, log)
    ensures Executions(log) <= |log|
    ensures Executions(log) <= Max(0, numRetries)
  {
    if log != [] {
      var front, last := log[..|log| - 1], log[|log| - 1];
      ContinuedExecutions(numRetries, front);
    }
  }

  // Whatever the outcomes, a command is tried at most max(2, num_retries) + 2 times and runs at most
  // num_retries + 1 times, so at most once when no retry is allowed.
  lemma RunsAreBounded(numRetries: int, log: seq<Attempt>)
    requires log != [] && Continued(numRetries, log[..|log| - 1])
    ensures |log| <= Max(2, numRetries) + 2
    ensures Executions(log) <= Max(0, numRetries) + 1
    ensures forall i :: 0 <= i < |log| - 1 ==> log[i].outcome != Replied(Success)
  {
    var front := log[..|log| - 1];
    ContinuedExecutions(numRetries, front);
    if |front| > 0 {
      assert Goes(|front| - 1, numRetries, front[|front| - 1].outcome);
    }
    forall i | 0 <= i < |log| - 1
      ensures log[i].outcome != Replied(Success)
    {
      assert Goes(i, numRetries, front[i].outcome);
    }
  }

  lemma {:induction false} AllRan(log: seq<Attempt>)
    requires forall i :: 0 <= i < |log| ==> MayHaveRun(log[i].outcome)
    ensures Executions(log) == |log|
  {
    if log != [] {
      AllRan(log[..|log| - 1]);
    }
  }

  // --- what an attempt meets, and what is tried again ---

  // A master with a sound connection, or one that can be made, gives the server's answer to the command,
  // preceded by ASKING or not; a broken one gives its error again.
  lemma AttemptsMeetServers(c: Command, t: Tables, log: seq<Attempt>, i: nat)
    requires c.slot.Some? ==> c.slot.value < |t.slots|
    requires Ran(c, t, log) && i < |log|
    ensures var now := Play(t, log[..i]);
            if now.masters == map[] then log[i].target == None && log[i].outcome == NoNode
            else && log[i].target.Some? && log[i].target.value in now.masters
                 && var n := log[i].target.value;
                    log[i].outcome
                    == match now.masters[n].link
                       case Broken(fault) => Replied(Failed(fault))
                       case Open => Replied(c.world.replies(i, n, log[i].asking))
                       case Closed =>
                         if c.world.connects(i, n) then Replied(c.world.replies(i, n, log[i].asking)) else NotConnected
    ensures i == 0 && c.slot.Some? && t.slots[c.slot.value] in t.masters ==>
              log[0].target == Some(t.slots[c.slot.value])
  {
    hide Ran, Play, SurveyedIfDue;
    RanTook(c, t, log, i);
    if i == 0 {
      NothingPlayed(t);
      assert log[..0] == [];
    }
  }

  // An attempt is the last one after success, an error reply, an error of the connection other than of
  // input or output, and an ASK without an address. A failed connection is tried at least once more, and
  // like CLUSTERDOWN and MOVED num_retries times and once more; an error of input or output num_retries
  // times; an ASK is followed three times.
  lemma TriedAgain(c: Command, t: Tables, log: seq<Attempt>, i: nat)
    requires c.slot.Some? ==> c.slot.value < |t.slots|
    requires Ran(c, t, log) && i < |log|
    ensures i + 1 < |log|
            <==> match log[i].outcome
                 case NoNode => false
                 case NotConnected => i < 1 || i <= c.numRetries
                 case Replied(Clusterdown) => i <= c.numRetries
                 case Replied(Moved) => i <= c.numRetries
                 case Replied(Failed(Io)) => i + 1 <= c.numRetries
                 case Replied(Failed(Eof)) => i + 1 <= c.numRetries
                 case Replied(Ask(Some(_))) => i < 3
                 case _ => false
  {
    hide Ran;
    RanTook(c, t, log, i);
  }

  // --- redirections ---

  lemma PlayNext(t: Tables, log: seq<Attempt>, i: nat)
    requires i < |log|
    ensures Play(t, log[..i + 1]) == After(Play(t, log[..i]), log[i])
  {
    hide After;
    assert log[..i + 1][..i] == log[..i];
  }

  lemma RanTook(c: Command, t: Tables, log: seq<Attempt>, i: nat)
    requires c.slot.Some? ==> c.slot.value < |t.slots|
    requires Ran(c, t, log) && i < |log|
    ensures Took(c, i, Play(t, log[..i]), AskBefore(log, i), log[i])
    ensures i + 1 < |log| <==> Goes(i, c.numRetries, log[i].outcome)
  {
    hide Took, Play, Goes;
    if i + 1 < |log| {
      assert log[..|log| - 1][i] == log[i];
    }
  }

  lemma Starts(c: Command, t: Tables, log: seq<Attempt>)
    requires c.slot.Some? ==> c.slot.value < |t.slots|
    requires Ran(c, t, log)
    ensures log != [] && Took(c, 0, t, None, log[0]) && log[..0] == [] && Play(t, []) == t
    ensures |log| > 1 <==> Goes(0, c.numRetries, log[0].outcome)
  {
    hide Took;
    RanTook(c, t, log, 0);
  }

  // An ASK is obeyed by the next attempt and only by it.
  lemma AskIsObeyed(c: Command, t: Tables, log: seq<Attempt>, i: nat)
    requires c.slot.Some? ==> c.slot.value < |t.slots|
    requires Ran(c, t, log) && i < |log|
    ensures log[i].asking <==> i > 0 && log[i - 1].outcome.Replied? && log[i - 1].outcome.reply.Ask?
    ensures log[i].asking && c.slot.Some? && log[i - 1].outcome.reply.to.value in Play(t, log[..i]).masters ==>
              log[i].target == log[i - 1].outcome.reply.to
  {
    hide Play, Heard, SurveyedIfDue, Ran;
    RanTook(c, t, log, i);
    if i > 0 {
      RanTook(c, t, log, i - 1);
    }
  }

  // A MOVED refusal that is not the end leads to a refresh, unless no master that can be asked tells the
  // layout; and the tables are refreshed from what one of them tells.
  lemma MovedRefreshes(c: Command, t: Tables, log: seq<Attempt>, i: nat)
    requires c.slot.Some? && c.slot.value < |t.slots|
    requires Ran(c, t, log) && i + 1 < |log| && log[i].outcome == Replied(Moved)
    ensures var masters := Met(Play(t, log[..i]), log[i]).masters;
            if log[i].listing.None? then Silent(c.world, i, masters, masters.Keys)
            else exists n :: n in masters && Told(c.world, i, n, masters[n].link) == log[i].listing
  {
    hide Play, Told, Ran, Seen, Surveyed;
    var now := Play(t, log[..i]);
    RanTook(c, t, log, i);
    var met := Met(now, log[i]);
    assert Due(c.slot, c.numRetries, i, met, log[i]);
    SurveyTells(c.world, i, met.masters, {}, log[i]);
  }

  lemma SurveyTells(world: World, i: nat, masters: map<Node, Master>, skip: set<Node>, a: Attempt)
    requires Surveyed(world, i, masters, skip, a)
    ensures if a.listing.None? then
              a.asked.Keys == masters.Keys - skip && Silent(world, i, masters, masters.Keys - skip)
            else exists n :: n in masters.Keys - skip && Told(world, i, n, masters[n].link) == a.listing
  {
    hide Told;
  }

  // A refresh that lists an owner of the slot sends the next attempt to that owner.
  lemma RefreshedOwnerIsNext(c: Command, t: Tables, log: seq<Attempt>, i: nat)
    requires c.slot.Some? && c.slot.value < |t.slots|
    requires Ran(c, t, log) && i + 1 < |log| && log[i].listing.Some?
    requires Claimed(log[i].listing.value, c.slot.value)
    ensures !log[i + 1].asking && log[i + 1].target == Some(Claimant(log[i].listing.value, c.slot.value))
  {
    hide Play, Refresh, Claimed, Claimant, Heard, Surveyed, Ran;
    var now, next := Play(t, log[..i]), Play(t, log[..i + 1]);
    PlayNext(t, log, i);
    RanTook(c, t, log, i);
    RanTook(c, t, log, i + 1);
    var met := Met(now, log[i]);
    SlotsLeadToMasters(met.(masters := Relinked(met.masters, log[i].asked)), log[i].listing.value, log[i].reached,
                       c.slot.value);
  }

  // --- failures ---

  // The connection failed: it could not be made, or ended in an error of input or output.
  predicate Failure(o: Outcome) {
    o == NotConnected || o == Replied(Failed(Io)) || o == Replied(Failed(Eof))
  }

  // How many attempts of the log were made at the master.
  function AttemptsAt(log: seq<Attempt>, n: Node): nat {
    if log == [] then 0
    else AttemptsAt(log[..|log| - 1], n) + if log[|log| - 1].target == Some(n) then 1 else 0
  }

  lemma CountAfter(t: Tables, a: Attempt, n: Node)
    requires n in t.masters && !Drops(a, n)
    ensures n in After(t, a).masters
    ensures var before, errors := t.masters[n].connErrors, After(t, a).masters[n].connErrors;
            if a.target != Some(n) then errors == before
            else && (Failure(a.outcome) ==> errors == (before + 1) % 0x1_0000_0000)
                 && (a.outcome == Replied(Moved) ==> errors == 2019)
                 && (a.outcome == Replied(Failed(Other)) ==> errors == before)
                 && (a.outcome.Replied? && !a.outcome.reply.Failed? && !a.outcome.reply.Moved? ==> errors == 0)
  {
    hide Refresh, LiveNodes;
    var met := Met(t, a);
    var surveyed := met.(masters := Relinked(met.masters, a.asked));
    if a.listing.Some? {
      MastersAreLiveNodes(surveyed, a.listing.value, a.reached);
    }
  }

  // A master's count is that of its failures since it answered last: over attempts from number p on, of
  // which all those at the master fail, the count grows by their number.
  lemma {:induction false} CountIsFailures(t: Tables, log: seq<Attempt>, n: Node, p: nat, k: nat)
    requires p <= k <= |log| && n in Play(t, log[..p]).masters
    requires Play(t, log[..p]).masters[n].connErrors < 0x1_0000_0000
    requires forall i :: p <= i < k ==> !Drops(log[i], n) && (log[i].target == Some(n) ==> Failure(log[i].outcome))
    ensures n in Play(t, log[..k]).masters
    ensures Play(t, log[..k]).masters[n].connErrors
            == (Play(t, log[..p]).masters[n].connErrors + AttemptsAt(log[p..k], n)) % 0x1_0000_0000
    decreases k - p
  {
    hide Play, After, Drops, Failure;
    if p < k {
      CountIsFailures(t, log, n, p, k - 1);
      PlayNext(t, log, k - 1);
      CountAfter(Play(t, log[..k - 1]), log[k - 1], n);
      Wraps(Play(t, log[..p]).masters[n].connErrors + AttemptsAt(log[p..k - 1], n));
      assert log[p..k][..k - 1 - p] == log[p..k - 1];
    }
  }

  // Between two attempts the other masters are asked for the layout if and only if the count of the master
  // tried last is 6, 9, 12 and so on, or beyond 2018, which MOVED sets. Then the tables are refreshed from
  // what one of them tells, unless none of them tells anything.
  lemma RefreshIffDue(c: Command, t: Tables, log: seq<Attempt>, i: nat, n: Node)
    requires c.slot.Some? && c.slot.value < |t.slots|
    requires Ran(c, t, log) && i + 1 < |log| && log[i].target == Some(n)
    requires !(log[i].outcome.Replied? && log[i].outcome.reply.Ask?)
    ensures var met := Met(Play(t, log[..i]), log[i]).masters;
            var others := if Failure(log[i].outcome) then met.Keys - {n} else met.Keys;
            && n in met
            && var errors := met[n].connErrors;
               if (errors >= 6 && errors % 3 == 0) || errors >= 2019 then
                 if log[i].listing.None? then
                   log[i].asked.Keys == others && Silent(c.world, i, met, others)
                 else exists m :: m in others && Told(c.world, i, m, met[m].link) == log[i].listing
               else log[i].asked == map[] && log[i].listing == None
  {
    hide Play, Told, Ran, Seen;
    RanTook(c, t, log, i);
    var met := Met(Play(t, log[..i]), log[i]);
    if Due(c.slot, c.numRetries, i, met, log[i]) {
      SurveyTells(c.world, i, met.masters, Skipped(log[i]), log[i]);
    }
  }

  // So when every attempt so far failed at one master, from a count of 0, the layout is asked for after
  // the sixth, the ninth and every third attempt, and after no other up to number 2018.
  lemma RefreshAfterFailures(c: Command, t: Tables, log: seq<Attempt>, i: nat, n: Node)
    requires c.slot.Some? && c.slot.value < |t.slots|
    requires Ran(c, t, log) && i + 1 < |log| && n in t.masters && t.masters[n].connErrors == 0
    requires forall j :: 0 <= j <= i ==> log[j].target == Some(n) && Failure(log[j].outcome)
    requires forall j :: 0 <= j < i ==> !Drops(log[j], n)
    ensures var met, errors := Met(Play(t, log[..i]), log[i]).masters, (i + 1) % 0x1_0000_0000;
            if (errors >= 6 && errors % 3 == 0) || errors >= 2019 then
              (exists m :: m in met && m != n && Told(c.world, i, m, met[m].link).Some?) <==> log[i].listing.Some?
            else log[i].asked == map[] && log[i].listing == None
  {
    hide Play, Told, Ran, Met, Drops, AskBefore;
    CountAfterFailures(t, log, i, n);
    RefreshIffDue(c, t, log, i, n);
  }

  lemma CountAfterFailures(t: Tables, log: seq<Attempt>, i: nat, n: Node)
    requires i < |log| && n in t.masters && t.masters[n].connErrors == 0
    requires forall j :: 0 <= j <= i ==> log[j].target == Some(n) && Failure(log[j].outcome)
    requires forall j :: 0 <= j < i ==> !Drops(log[j], n)
    ensures var met := Met(Play(t, log[..i]), log[i]).masters;
            n in met && met[n].connErrors == (i + 1) % 0x1_0000_0000
  {
    hide Play, Met, Drops, Failure;
    CountBefore(t, log, i, n);
    Wraps(i);
    OneMoreFailure(Play(t, log[..i]), log[i], n);
  }

  lemma CountBefore(t: Tables, log: seq<Attempt>, i: nat, n: Node)
    requires i <= |log| && n in t.masters && t.masters[n].connErrors == 0
    requires forall j :: 0 <= j < i ==> log[j].target == Some(n) && Failure(log[j].outcome) && !Drops(log[j], n)
    ensures var u := Play(t, log[..i]); n in u.masters && u.masters[n].connErrors == i % 0x1_0000_0000
  {
    hide Play, Drops, Failure, AttemptsAt;
    NothingPlayed(t);
    assert log[..0] == [] && log[0..i] == log[..i];
    CountIsFailures(t, log, n, 0, i);
    AllAttemptsAt(log[..i], n);
  }

  lemma {:induction false} AllAttemptsAt(log: seq<Attempt>, n: Node)
    requires forall j :: 0 <= j < |log| ==> log[j].target == Some(n)
    ensures AttemptsAt(log, n) == |log|
  {
    if log != [] {
      AllAttemptsAt(log[..|log| - 1], n);
    }
  }

  lemma Wraps(n: nat)
    ensures (n % 0x1_0000_0000 + 1) % 0x1_0000_0000 == (n + 1) % 0x1_0000_0000
  {
  }

  lemma OneMoreFailure(t: Tables, a: Attempt, n: Node)
    requires a.target == Some(n) && n in t.masters && Failure(a.outcome)
    ensures Met(t, a).masters[n].connErrors == (t.masters[n].connErrors + 1) % 0x1_0000_0000
  {
  }

  // --- new masters ---

  // A master that a refresh adds has a connection exactly if it accepts one, and no failures yet.
  lemma {:induction false} ListedLink(t: Tables, infos: seq<NodeInfo>, reachable: set<Node>, n: Node)
    ensures var u := Listed(t, infos, reachable);
            n in u.masters && n !in t.masters ==>
              u.masters[n].link == (if n in reachable then Open else Closed) && u.masters[n].connErrors == 0
  {
    if infos != [] {
      ListedLink(t, infos[..|infos| - 1], reachable, n);
    }
  }

  lemma RefreshKeepsListed(t: Tables, infos: seq<NodeInfo>, reachable: set<Node>, n: Node)
    requires n in Refresh(t, infos, reachable).masters
    ensures n in Listed(t, infos, reachable).masters && n in LiveNodes(infos)
    ensures Refresh(t, infos, reachable).masters[n] == Listed(t, infos, reachable).masters[n]
  {
    hide Listed, LiveNodes;
    ListedMasters(t, infos, reachable);
  }

  lemma NewMastersAreConnected(c: Command, t: Tables, log: seq<Attempt>, i: nat, n: Node)
    requires c.slot.Some? ==> c.slot.value < |t.slots|
    requires Ran(c, t, log) && i < |log|
    requires n in Play(t, log[..i + 1]).masters && n !in Play(t, log[..i]).masters
    ensures log[i].listing.Some?
    ensures var m := Play(t, log[..i + 1]).masters[n];
            m.connErrors == 0 && m.link == if c.world.connects(i, n) then Open else Closed
  {
    hide Play, Ran, Refresh, Listed, LiveNodes, Heard;
    RanTook(c, t, log, i);
    PlayNext(t, log, i);
    var met := Met(Play(t, log[..i]), log[i]);
    var surveyed := met.(masters := Relinked(met.masters, log[i].asked));
    if log[i].listing.Some? {
      RefreshKeepsListed(surveyed, log[i].listing.value, log[i].reached, n);
      ListedLink(surveyed, log[i].listing.value, log[i].reached, n);
    }
  }

  // --- broken connections ---

  // The masters whose connection is broken by an error other than of input, output or end of file.
  function Stuck(t: Tables): (nodes: set<Node>)
    ensures nodes <= t.masters.Keys
  {
    set n | n in t.masters && t.masters[n].link == Broken(Other)
  }

  // The attempt leaves the master's connection broken in this way.
  predicate Breaks(a: Attempt, n: Node) {
    || (a.target == Some(n) && a.outcome == Replied(Failed(Other)))
    || (n in a.asked && a.asked[n] == Broken(Other))
  }

  // The attempt refreshes the tables from a listing in which the node is not a live master.
  predicate Drops(a: Attempt, n: Node) {
    a.listing.Some? && n !in LiveNodes(a.listing.value)
  }

  predicate Keeps(log: seq<Attempt>, n: Node) {
    forall i :: 0 <= i < |log| ==> !Drops(log[i], n)
  }

  // A broken connection reports its error again, to a command and to CLUSTER NODES.
  predicate Reports(t: Tables, a: Attempt) {
    && (a.target.Some? && a.target.value in t.masters && t.masters[a.target.value].link.Broken? ==>
          a.outcome == Replied(Failed(t.masters[a.target.value].link.fault)))
    && (var met := Met(t, a).masters;
        forall n :: n in a.asked && n in met && met[n].link.Broken? ==> a.asked[n] == met[n].link)
    && (a.target.Some? && a.outcome != NoNode ==> a.target.value in t.masters)
    && a.asked.Keys <= t.masters.Keys
  }

  predicate Reporting(t: Tables, log: seq<Attempt>) {
    forall i :: 0 <= i < |log| ==> Reports(Play(t, log[..i]), log[i])
  }

  lemma TookReports(c: Command, i: nat, t: Tables, ask: Option<Node>, a: Attempt)
    requires c.slot.Some? ==> c.slot.value < |t.slots|
    requires Took(c, i, t, ask, a)
    ensures Reports(t, a)
  {
  }

  lemma StuckAfter(t: Tables, a: Attempt, n: Node)
    requires Reports(t, a)
    ensures n in Stuck(After(t, a)) <==> !Drops(a, n) && (n in Stuck(t) || Breaks(a, n))
  {
    hide Refresh, LiveNodes;
    var met := Met(t, a);
    var surveyed := met.(masters := Relinked(met.masters, a.asked));
    assert n in Stuck(surveyed) <==> n in Stuck(t) || Breaks(a, n);
    if a.listing.Some? {
      MastersAreLiveNodes(surveyed, a.listing.value, a.reached);
      RefreshBreaksNothing(surveyed, a.listing.value, a.reached, n);
    }
  }

  lemma RefreshBreaksNothing(t: Tables, infos: seq<NodeInfo>, reachable: set<Node>, n: Node)
    ensures n in Stuck(Refresh(t, infos, reachable)) <==> n in Stuck(t) && n in LiveNodes(infos)
  {
    hide Listed, LiveNodes;
    ListedLink(t, infos, reachable, n);
    ListedMasters(t, infos, reachable);
  }

  // Some attempt breaks the connection, and every listing from then on keeps the master.
  predicate BrokenAnew(log: seq<Attempt>, n: Node) {
    exists i :: 0 <= i < |log| && Breaks(log[i], n) && Keeps(log[i..], n)
  }

  // A master is stuck after a run if and only if it was stuck before and every listing keeps it, or some
  // attempt breaks its connection and every listing from then on keeps it.
  lemma {:induction false} StuckIff(t: Tables, log: seq<Attempt>, n: Node)
    requires Reporting(t, log)
    ensures n in Stuck(Play(t, log)) <==> (n in Stuck(t) && Keeps(log, n)) || BrokenAnew(log, n)
  {
    hide Stuck, Play, Breaks, Drops, Reporting, Keeps, BrokenAnew;
    if log == [] {
      KeepsOneMore([], Attempt(None, false, NoNode, map[], None, {}), n);
      NothingPlayed(t);
    } else {
      var front, last := log[..|log| - 1], log[|log| - 1];
      ReportingFront(t, log);
      StuckIff(t, front, n);
      StuckAfter(Play(t, front), last, n);
      assert front + [last] == log;
      KeepsOneMore(front, last, n);
      BrokenOneMore(front, last, n);
    }
  }

  lemma NothingPlayed(t: Tables)
    ensures Play(t, []) == t
  {
  }

  lemma ReportingFront(t: Tables, log: seq<Attempt>)
    requires Reporting(t, log) && log != []
    ensures var front, last := log[..|log| - 1], log[|log| - 1];
            Reporting(t, front) && Reports(Play(t, front), last) && Play(t, log) == After(Play(t, front), last)
  {
    hide Reports, After;
    var front := log[..|log| - 1];
    assert forall i :: 0 <= i < |front| ==> front[i] == log[i] && front[..i] == log[..i];
  }

  lemma KeepsOneMore(log: seq<Attempt>, a: Attempt, n: Node)
    ensures Keeps(log + [a], n) <==> Keeps(log, n) && !Drops(a, n)
    ensures Keeps([], n) && !BrokenAnew([], n)
  {
    hide Drops;
    var more := log + [a];
    assert more[|log|] == a;
    assert forall i :: 0 <= i < |log| ==> more[i] == log[i];
  }

  lemma BrokenOneMore(log: seq<Attempt>, a: Attempt, n: Node)
    ensures BrokenAnew(log + [a], n) <==> !Drops(a, n) && (BrokenAnew(log, n) || Breaks(a, n))
  {
    hide Drops, Breaks, Keeps;
    var more := log + [a];
    forall i | 0 <= i < |log|
      ensures more[i] == log[i] && (Keeps(more[i..], n) <==> Keeps(log[i..], n) && !Drops(a, n))
    {
      assert more[i..] == log[i..] + [a];
      KeepsOneMore(log[i..], a, n);
    }
    KeepsOneMore([], a, n);
    assert more[|log|..] == [] + [a] && more[|log|] == a;
    if i :| 0 <= i < |log| && Breaks(log[i], n) && Keeps(log[i..], n) && !Drops(a, n) {
      assert Breaks(more[i], n) && Keeps(more[i..], n);
    }
    if Breaks(a, n) && !Drops(a, n) {
      assert Breaks(more[|log|], n) && Keeps(more[|log|..], n);
    }
  }

  lemma RanReports(c: Command, t: Tables, log: seq<Attempt>)
    requires c.slot.Some? ==> c.slot.value < |t.slots|
    requires Ran(c, t, log)
    ensures Reporting(t, log)
  {
    hide Ran, Took, Reports, Play;
    forall i | 0 <= i < |log|
      ensures Reports(Play(t, log[..i]), log[i])
    {
      RanTook(c, t, log, i);
      TookReports(c, i, Play(t, log[..i]), AskBefore(log, i), log[i]);
    }
  }

  // A broken connection ends the command that meets it.
  lemma BrokenEnds(c: Command, t: Tables, log: seq<Attempt>, i: nat)
    requires c.slot.Some? ==> c.slot.value < |t.slots|
    requires Ran(c, t, log) && i < |log| && log[i].target.Some?
    requires log[i].target.value in Stuck(Play(t, log[..i]))
    ensures i == |log| - 1 && log[i].outcome == Replied(Failed(Other)) && !Succeeded(log)
  {
    hide Ran, Play;
    RanTook(c, t, log, i);
  }

  // --- sessions of many commands ---

  function Flat(logs: seq<seq<Attempt>>): seq<Attempt> {
    if logs == [] then [] else Flat(logs[..|logs| - 1]) + logs[|logs| - 1]
  }

  predicate SlotsExist(commands: seq<Command>, n: nat) {
    forall k :: 0 <= k < |commands| && commands[k].slot.Some? ==> commands[k].slot.value < n
  }

  // The logs of commands given one after the other.
  predicate Session(t: Tables, commands: seq<Command>, logs: seq<seq<Attempt>>)
    requires SlotsExist(commands, |t.slots|)
  {
    && |logs| == |commands|
    && forall k :: 0 <= k < |logs| ==> Ran(commands[k], Play(t, Flat(logs[..k])), logs[k])
  }

  lemma {:induction false} PlayConcat(t: Tables, x: seq<Attempt>, y: seq<Attempt>)
    ensures Play(t, x + y) == Play(Play(t, x), y)
  {
    hide After;
    if y == [] {
      assert x + y == x;
    } else {
      var last := |y| - 1;
      PlayConcat(t, x, y[..last]);
      assert (x + y)[..|x + y| - 1] == x + y[..last];
    }
  }

  lemma ReportingConcat(t: Tables, x: seq<Attempt>, y: seq<Attempt>)
    requires Reporting(t, x) && Reporting(Play(t, x), y)
    ensures Reporting(t, x + y)
  {
    hide Play, Reports;
    forall i | 0 <= i < |x + y|
      ensures Reports(Play(t, (x + y)[..i]), (x + y)[i])
    {
      if i < |x| {
        assert (x + y)[..i] == x[..i];
      } else {
        PlayConcat(t, x, y[..i - |x|]);
        assert (x + y)[..i] == x + y[..i - |x|];
      }
    }
  }

  lemma NothingReports(t: Tables)
    ensures Reporting(t, [])
  {
  }

  lemma FlatStep(logs: seq<seq<Attempt>>, log: seq<Attempt>)
    ensures Flat(logs + [log]) == Flat(logs) + log
  {
    assert (logs + [log])[..|logs|] == logs;
  }

  lemma {:induction false} SessionReports(t: Tables, commands: seq<Command>, logs: seq<seq<Attempt>>, k: nat)
    requires SlotsExist(commands, |t.slots|) && Session(t, commands, logs) && k <= |logs|
    ensures Reporting(t, Flat(logs[..k]))
  {
    hide Play, Ran, Reporting;
    if k == 0 {
      NothingReports(t);
    } else {
      SessionReports(t, commands, logs, k - 1);
      RanReports(commands[k - 1], Play(t, Flat(logs[..k - 1])), logs[k - 1]);
      ReportingConcat(t, Flat(logs[..k - 1]), logs[k - 1]);
      FlatStep(logs[..k - 1], logs[k - 1]);
      assert logs[..k - 1] + [logs[k - 1]] == logs[..k];
    }
  }

  // Over any commands, for any slots: a master is stuck before a command exactly if it was at first, or
  // was broken since, and every listing since then kept it; and as long as it is, every command for a slot
  // it owns fails at once, whatever the servers would answer, and changes nothing.
  lemma Condemned(t: Tables, commands: seq<Command>, logs: seq<seq<Attempt>>, k: nat, n: Node)
    requires SlotsExist(commands, |t.slots|) && Session(t, commands, logs) && k < |logs|
    ensures var now, past := Play(t, Flat(logs[..k])), Flat(logs[..k]);
            && (n in Stuck(now) <==> (n in Stuck(t) && Keeps(past, n)) || BrokenAnew(past, n))
            && (n in Stuck(now) && commands[k].slot.Some? && now.slots[commands[k].slot.value] == n ==>
                  |logs[k]| == 1 && !Succeeded(logs[k]) && Play(now, logs[k]) == now)
  {
    hide Play, Ran, Stuck, Keeps, BrokenAnew, Reporting;
    var now, past := Play(t, Flat(logs[..k])), Flat(logs[..k]);
    SessionReports(t, commands, logs, k);
    StuckIff(t, past, n);
    if n in Stuck(now) && commands[k].slot.Some? && now.slots[commands[k].slot.value] == n {
      FailsAtOnce(commands[k], now, logs[k]);
    }
  }

  lemma FailsAtOnce(c: Command, t: Tables, log: seq<Attempt>)
    requires c.slot.Some? && c.slot.value < |t.slots| && t.slots[c.slot.value] in Stuck(t)
    requires Ran(c, t, log)
    ensures |log| == 1 && log[0].outcome == Replied(Failed(Other)) && !Succeeded(log) && Play(t, log) == t
  {
    hide Ran, Heard, SurveyedIfDue, After;
    Starts(c, t, log);
    BrokenEnds(c, t, log, 0);
    PlayNext(t, log, 0);
    assert log[..1] == log;
    ErrorChangesNothing(c, t, log[0]);
  }

  lemma ErrorChangesNothing(c: Command, t: Tables, a: Attempt)
    requires c.slot.Some? ==> c.slot.value < |t.slots|
    requires Took(c, 0, t, None, a) && a.outcome == Replied(Failed(Other))
    requires a.target.Some? && a.target.value in Stuck(t)
    ensures After(t, a) == t
  {
    NoneRelinked(t.masters);
  }

  lemma {:induction false} IdsKept(t: Tables, log: seq<Attempt>)
    requires IdsValid(t)
    ensures IdsValid(Play(t, log))
  {
    hide IdsValid, After;
    if log != [] {
      IdsKept(t, log[..|log| - 1]);
      IdsKeptByOne(Play(t, log[..|log| - 1]), log[|log| - 1]);
    }
  }

  lemma IdsKeptByOne(t: Tables, a: Attempt)
    requires IdsValid(t)
    ensures IdsValid(After(t, a))
  {
    hide Refresh;
    var met := Met(t, a);
    var surveyed := met.(masters := Relinked(met.masters, a.asked));
    assert IdsValid(surveyed);
    if a.listing.Some? {
      IdsStayValid(surveyed, a.listing.value, a.reached);
    }
  }

  // --- the source ---

  ghost predicate LayoutsInRange(world: World, n: nat) {
    forall i: nat, node :: world.layouts(i, node).Nodes? ==> AllInRange(world.layouts(i, node).infos, n)
  }

  // A connection is made if there is none.
  function Linked(world: World, i: nat, node: Node, m: Master): Master {
    if !m.link.Closed? then m
    else if world.connects(i, node) then m.(link := Open)
    else m.(connErrors := (m.connErrors + 1) % UINT_RANGE)
  }

  // set_redis_context: a failed connection is one more error.
  method Connect(client: Client, i: nat, node: Node, world: World)
    requires node in client.masters
    modifies client
    ensures client.ids == old(client.ids)
    ensures client.masters == old(client.masters[node := Linked(world, i, node, client.masters[node])])
  {
    var m := client.masters[node];
    if m.link.Closed? {
      if world.connects(i, node) {
        m := m.(link := Open);
      } else {
        m := m.(connErrors := (m.connErrors + 1) % UINT_RANGE);
      }
    }
    client.masters := client.masters[node := m];
  }

  method Close(client: Client, node: Node)
    requires node in client.masters
    modifies client
    ensures client.ids == old(client.ids)
    ensures client.masters == old(client.masters[node := client.masters[node].(link := Closed)])
  {
    client.masters := client.masters[node := client.masters[node].(link := Closed)];
  }

  // get_redis_node: the node for a slot, or for the address an ASK gave; any master when that is unknown.
  method GetRedisNode(client: Client, slot: Option<nat>, i: nat, ask: Option<Node>, world: World)
    returns (target: Option<Node>)
    requires slot.Some? ==> slot.value < client.slot2node.Length
    modifies client
    ensures client.ids == old(client.ids)
    ensures target.None? <==> old(client.masters).Keys == {}
    ensures target.None? ==> client.masters == old(client.masters)
    ensures target.Some? ==>
              && target.value in old(client.masters)
              && client.masters == old(client.masters)[target.value :=
                   Linked(world, i, target.value, old(client.masters)[target.value])]
    ensures var owner := Owner(slot, ask, client.slot2node[..]);
            owner.Some? && owner.value in old(client.masters) ==> target == owner
  {
    var owner := if slot.None? then None else if ask.Some? then ask else Some(client.slot2node[slot.value]);
    target := None;
    if client.masters.Keys != {} {
      if owner.Some? && owner.value in client.masters {
        target := owner;
      } else {
        var node :| node in client.masters.Keys;
        target := Some(node);
      }
      Connect(client, i, target.value, world);
    }
  }

  // handle_redis_command_error and handle_redis_reply: what is to be done, the node's error count, and
  // whether its connection is left broken.
  method HandleReply(client: Client, node: Node, reply: Reply) returns (r: HandleResult)
    requires node in client.masters
    modifies client
    ensures client.ids == old(client.ids)
    ensures r == Handled(Replied(reply))
    ensures var m := old(client.masters[node]);
            client.masters == old(client.masters)[node :=
              Master(m.id, if reply.Failed? then Broken(reply.fault) else m.link, ErrorsAfter(m.connErrors, reply))]
  {
    var m := client.masters[node];
    match reply {
      case Failed(fault) =>
        m := m.(link := Broken(fault));
        if fault.Other? {
          r := HrError;
        } else {
          m := m.(connErrors := (m.connErrors + 1) % UINT_RANGE);
          r := HrReconnCond;
        }
      case Success =>
        m := m.(connErrors := 0);
        r := HrSuccess;
      case Clusterdown =>
        m := m.(connErrors := 0);
        r := HrRetryUncond;
      case Ask(_) =>
        m := m.(connErrors := 0);
        r := HrRedirect;
      case Moved =>
        m := m.(connErrors := MOVED_ERRORS);
        r := HrRetryUncond;
      case ErrorReply =>
        m := m.(connErrors := 0);
        r := HrError;
    }
    client.masters := client.masters[node := m];
  }

  // Sends the command over a connection and handles what comes back; a connection with an error of input
  // or output is closed.
  method Execute(client: Client, world: World, i: nat, node: Node, asking: bool)
    returns (outcome: Outcome, r: HandleResult)
    requires node in client.masters && !client.masters[node].link.Closed?
    modifies client
    ensures client.ids == old(client.ids)
    ensures outcome == Seen(world, i, node, old(client.masters[node].link), asking) && r == Handled(outcome)
    ensures client.masters == old(client.masters)[node := Touched(old(client.masters[node]), outcome)]
  {
    var link := client.masters[node].link;
    var reply := if link.Broken? then Failed(link.fault) else world.replies(i, node, asking);
    outcome := Replied(reply);
    r := HandleReply(client, node, reply);
    if r.HrReconnCond? {
      Close(client, node);
    }
  }

  lemma LinkedTouched(world: World, i: nat, node: Node, m: Master, asking: bool)
    ensures var o, l := Seen(world, i, node, m.link, asking), Linked(world, i, node, m);
            if l.link.Closed? then o == NotConnected && Touched(m, o) == l.(link := Closed)
            else o == Seen(world, i, node, l.link, asking) && Touched(m, o) == Touched(l, o)
  {
  }

  // One turn up to the handling of what came back.
  method Try(client: Client, c: Command, i: nat, ask: Option<Node>) returns (a: Attempt, r: HandleResult)
    requires c.slot.Some? ==> c.slot.value < client.slot2node.Length
    modifies client
    ensures Routed(c.slot, old(client.Contents()), ask, a) && Heard(c.world, i, old(client.Contents()), a)
    ensures a.asked == map[] && a.listing.None? && r == Handled(a.outcome)
    ensures client.Contents() == Met(old(client.Contents()), a)
  {
    hide Seen, Touched, Linked;
    ghost var masters := client.masters;
    var target := GetRedisNode(client, c.slot, i, ask, c.world);
    var outcome := NoNode;
    r := HrError;
    if target.Some? {
      var node := target.value;
      LinkedTouched(c.world, i, node, masters[node], ask.Some?);
      if client.masters[node].link.Closed? {
        outcome, r := NotConnected, HrReconnUncond;
        Close(client, node);
      } else {
        outcome, r := Execute(client, c.world, i, node, ask.Some?);
      }
    }
    a := Attempt(target, ask.Some?, outcome, map[], None, {});
  }

  lemma RelinkOne(masters: map<Node, Master>, asked: map<Node, Link>, n: Node, link: Link)
    requires n in masters && n !in asked
    ensures Relinked(masters, asked[n := link]) == Relinked(masters, asked)[n := masters[n].(link := link)]
    ensures Relinked(masters, asked)[n] == masters[n]
  {
  }

  lemma NoneRelinked(masters: map<Node, Master>)
    ensures Relinked(masters, map[]) == masters
  {
  }

  // list_cluster_nodes, over a new connection if there is none: what the master tells, or nothing.
  method ListClusterNodes(client: Client, i: nat, node: Node, world: World) returns (infos: seq<NodeInfo>)
    requires node in client.masters
    modifies client
    ensures client.ids == old(client.ids)
    ensures var m := old(client.masters[node]);
            && client.masters == old(client.masters)[node := m.(link := LinkAsked(world, i, node, m.link))]
            && Told(world, i, node, m.link) == if infos == [] then None else Some(infos)
  {
    infos := [];
    var link := client.masters[node].link;
    if link.Closed? && world.connects(i, node) {
      link := Open;
    }
    if link.Open? {
      match world.layouts(i, node) {
        case Nodes(nodes) => infos := nodes;
        case Lost(fault) => link := Broken(fault);
      }
    }
    client.masters := client.masters[node := client.masters[node].(link := link)];
  }

  lemma ToldInRange(world: World, i: nat, node: Node, link: Link, n: nat)
    requires LayoutsInRange(world, n) && Told(world, i, node, link).Some?
    ensures AllInRange(Told(world, i, node, link).value, n)
  {
  }

  // refresh_master_node_table: ask the known masters in some order, except the failed one, and refresh from
  // the first that tells the layout.
  method RefreshMasterNodeTable(client: Client, i: nat, errorNode: Option<Node>, world: World, a: Attempt)
    returns (b: Attempt)
    requires LayoutsInRange(world, client.slot2node.Length)
    modifies client, client.slot2node
    ensures b == a.(asked := b.asked, listing := b.listing, reached := b.reached)
    ensures Surveyed(world, i, old(client.masters), if errorNode.Some? then {errorNode.value} else {}, b)
    ensures var t := old(client.Contents());
            var surveyed := t.(masters := Relinked(t.masters, b.asked));
            client.Contents() == if b.listing.Some? then Refresh(surveyed, b.listing.value, b.reached) else surveyed
  {
    hide Refresh, LiveNodes, Relinked, LinkAsked, Told, LayoutsInRange, Reachable, AllInRange, Silent, Surveyed;
    ghost var masters, skip := client.masters, if errorNode.Some? then {errorNode.value} else {};
    var rest := client.masters.Keys;
    var asked: map<Node, Link> := map[];
    NoneRelinked(masters);
    NoneTells(world, i, masters);
    assert asked.Keys == {};
    while rest != {}
      invariant rest <= masters.Keys && asked.Keys == masters.Keys - skip - rest
      invariant client.masters == Relinked(masters, asked) && client.ids == old(client.ids)
      invariant client.slot2node[..] == old(client.slot2node[..])
      invariant forall n :: n in asked ==> asked[n] == LinkAsked(world, i, n, masters[n].link)
      invariant Silent(world, i, masters, asked.Keys)
      decreases rest
    {
      var node :| node in rest;
      rest := rest - {node};
      if errorNode != Some(node) {
        RelinkOne(masters, asked, node, LinkAsked(world, i, node, masters[node].link));
        var infos := ListClusterNodes(client, i, node, world);
        ghost var before := asked;
        asked := asked[node := client.masters[node].link];
        OneMoreAsked(world, i, masters, before, node, asked[node]);
        if infos != [] {
          var reachable := Reachable(world, i, infos);
          b := a.(asked := asked, listing := Some(infos), reached := reachable);
          ToldInRange(world, i, node, masters[node].link, client.slot2node.Length);
          SurveyFinds(world, i, masters, skip, b, node);
          var _ := client.ClearAndUpdateMasterNodes(infos, reachable);
          return;
        }
      }
    }
    b := a.(asked := asked, listing := None);
    SurveyFails(world, i, masters, skip, b);
  }

  lemma NoneTells(world: World, i: nat, masters: map<Node, Master>)
    ensures Silent(world, i, masters, {})
  {
  }

  lemma OneMoreAsked(world: World, i: nat, masters: map<Node, Master>, asked: map<Node, Link>, node: Node, link: Link)
    requires node in masters && node !in asked && Silent(world, i, masters, asked.Keys)
    ensures asked[node := link].Keys - {node} == asked.Keys
    ensures Told(world, i, node, masters[node].link).None? ==> Silent(world, i, masters, asked[node := link].Keys)
  {
  }

  lemma SurveyFinds(world: World, i: nat, masters: map<Node, Master>, skip: set<Node>, a: Attempt, node: Node)
    requires a.asked.Keys <= masters.Keys - skip && node in a.asked
    requires forall n :: n in a.asked ==> a.asked[n] == LinkAsked(world, i, n, masters[n].link)
    requires Silent(world, i, masters, a.asked.Keys - {node}) && Told(world, i, node, masters[node].link) == a.listing
    requires a.listing.Some? && a.reached == Reachable(world, i, a.listing.value)
    ensures Surveyed(world, i, masters, skip, a)
  {
    hide Silent, Told, LinkAsked, Reachable;
  }

  lemma SurveyFails(world: World, i: nat, masters: map<Node, Master>, skip: set<Node>, a: Attempt)
    requires a.asked.Keys == masters.Keys - skip && a.listing.None? && Silent(world, i, masters, a.asked.Keys)
    requires forall n :: n in a.asked ==> a.asked[n] == LinkAsked(world, i, n, masters[n].link)
    ensures Surveyed(world, i, masters, skip, a)
  {
  }

  lemma StillMet(c: Command, i: nat, t: Tables, ask: Option<Node>, a: Attempt, b: Attempt)
    requires c.slot.Some? ==> c.slot.value < |t.slots|
    requires Routed(c.slot, t, ask, a) && Heard(c.world, i, t, a)
    requires b == a.(asked := b.asked, listing := b.listing, reached := b.reached)
    ensures Routed(c.slot, t, ask, b) && Heard(c.world, i, t, b) && Met(t, b) == Met(t, a)
  {
  }

  // One turn of the loop; goes tells whether there is another, which an ASK sends to next.
  method Turn(client: Client, c: Command, i: nat, ask: Option<Node>)
    returns (a: Attempt, next: Option<Node>, goes: bool)
    requires c.slot.Some? ==> c.slot.value < client.slot2node.Length
    requires LayoutsInRange(c.world, client.slot2node.Length)
    modifies client, client.slot2node
    ensures Took(c, i, old(client.Contents()), ask, a) && client.Contents() == After(old(client.Contents()), a)
    ensures goes <==> Goes(i, c.numRetries, a.outcome)
    ensures goes ==> next == if a.outcome.Replied? && a.outcome.reply.Ask? then a.outcome.reply.to else None
  {
    hide Surveyed, LayoutsInRange, Refresh, Relinked, Met, Seen;
    var r;
    a, r := Try(client, c, i, ask);
    NoneRelinked(client.masters);
    next, goes := None, false;
    if r.HrRedirect? {
      next := a.outcome.reply.to;
      goes := next.Some? && i <= 2;
    } else if !r.HrSuccess? && !r.HrError? {
      goes := if r.HrReconnUncond? then !(i > c.numRetries && i > 0)
              else if r.HrRetryUncond? then !(i > c.numRetries)
              else !(i >= c.numRetries);
      if goes && c.slot.Some? && NeedRefreshMaster(client.masters[a.target.value].connErrors) {
        var errorNode := if r.HrReconnCond? || r.HrReconnUncond? then a.target else None;
        var b := RefreshMasterNodeTable(client, i, errorNode, c.world, a);
        StillMet(c, i, old(client.Contents()), ask, a, b);
        a := b;
      }
    }
  }

  // redis_command
  method RedisCommand(client: Client, c: Command) returns (log: seq<Attempt>, ok: bool)
    requires c.slot.Some? ==> c.slot.value < client.slot2node.Length
    requires LayoutsInRange(c.world, client.slot2node.Length)
    modifies client, client.slot2node
    ensures Ran(c, old(client.Contents()), log) && (ok <==> Succeeded(log))
    ensures client.Contents() == Play(old(client.Contents()), log)
    ensures |log| <= Max(2, c.numRetries) + 2 && Executions(log) <= Max(0, c.numRetries) + 1
  {
    hide Took, After, LayoutsInRange;
    ghost var t := client.Contents();
    log, ok := [], false;
    var ask: Option<Node> := None;
    while true
      invariant Continued(c.numRetries, log) && Going(c, t, log) && ask == AskBefore(log, |log|)
      invariant client.Contents() == Play(t, log)
      decreases Max(2, c.numRetries) + 2 - |log|
    {
      var a, next, goes := Turn(client, c, |log|, ask);
      GoingStep(c, t, log, a);
      assert (log + [a])[..|log|] == log;
      log, ask := log + [a], next;
      if !goes {
        ok := a.outcome == Replied(Success);
        break;
      }
    }
    RunsAreBounded(c.numRetries, log);
  }

  method RunSession(client: Client, commands: seq<Command>) returns (logs: seq<seq<Attempt>>)
    requires SlotsExist(commands, client.slot2node.Length)
    requires forall k :: 0 <= k < |commands| ==> LayoutsInRange(commands[k].world, client.slot2node.Length)
    modifies client, client.slot2node
    ensures Session(old(client.Contents()), commands, logs)
    ensures client.Contents() == Play(old(client.Contents()), Flat(logs))
  {
    hide Ran, LayoutsInRange, Executions;
    ghost var t := client.Contents();
    logs := [];
    for k := 0 to |commands|
      invariant |logs| == k && client.Contents() == Play(t, Flat(logs))
      invariant forall j :: 0 <= j < k ==> Ran(commands[j], Play(t, Flat(logs[..j])), logs[j])
    {
      var log, _ := RedisCommand(client, commands[k]);
      PlayConcat(t, Flat(logs), log);
      FlatStep(logs, log);
      assert logs[..k] == logs;
      assert forall j :: 0 <= j <= k ==> (logs + [log])[..j] == logs[..j];
      logs := logs + [log];
    }
  }
}
