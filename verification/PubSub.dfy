/** The client's subscription table against a server, over two FIFO channels. */
module PubSub {
  import opened Bytes

  // A channel, or a pattern of the P-variants; they live in separate tables.
  datatype Channel = Channel(pattern: bool, name: seq<byte>)

  datatype Request = Subscribe(c: Channel) | Unsubscribe(c: Channel) | Regular(id: nat)

  // What the server sends; total is its number of channels and patterns, and error tells whether the answer
  // to a regular command is an error reply.
  datatype Push = Subscribed(c: Channel, total: nat) | Unsubscribed(c: Channel, total: nat)
                | Message(c: Channel) | Answer(id: nat, error: bool)

  // --- the client ---

  // The SUBSCRIBED flag, the pending_subs counter of every table entry, and the two queues of regular
  // callbacks: those of commands sent before subscribing, and those of commands sent while subscribed.
  datatype Client = Client(flag: bool, table: map<Channel, int>, replies: seq<nat>, invalid: seq<nat>)

  // Who a received reply is given to. Nobody: no table entry was found, and whatever
  // callback was run last would be run again. Unexpected: an assertion fails. Teardown: the connection is
  // closed, as on an error reply nobody asked for.
  datatype Target = ToCommand(id: nat) | ToChannel(c: Channel) | Nobody | Unexpected | Teardown

  // Sending; nothing is sent for an unsubscribe while not subscribed.
  function Send(cl: Client, r: Request): (o: Option<Client>)
  {
    match r
    case Subscribe(c) =>
      Some(cl.(flag := true, table := cl.table[c := if c in cl.table then cl.table[c] + 1 else 1]))
    case Unsubscribe(c) => if cl.flag then Some(cl) else None
    case Regular(id) =>
      Some(if cl.flag then cl.(invalid := cl.invalid + [id]) else cl.(replies := cl.replies + [id]))
  }

  function Remove(table: map<Channel, int>, c: Channel): (t: map<Channel, int>)
    ensures t.Keys == table.Keys - {c} && forall k :: k in t ==> t[k] == table[k]
  {
    map k | k in table && k != c :: table[k]
  }

  // __redisGetSubscribeCallback; an answer to a regular command is not an array.
  function Lookup(cl: Client, p: Push): (r: (Client, Target)) {
    if p.Answer? then
      if cl.invalid == [] then (cl, Nobody) else (cl.(invalid := cl.invalid[1..]), ToCommand(cl.invalid[0]))
    else if p.c !in cl.table then (cl, Nobody)
    else
      var cl' := match p
                 case Subscribed(c, _) => cl.(table := cl.table[c := cl.table[c] - 1])
                 case Message(_) => cl
                 case Unsubscribed(c, total) =>
                   var table := if cl.table[c] == 0 then Remove(cl.table, c) else cl.table;
                   cl.(table := table, flag := cl.flag && !(total == 0 && table == map[]));
      (cl', ToChannel(p.c))
  }

  // Receiving: pending regular callbacks come first.
  function Receive(cl: Client, p: Push): (r: (Client, Target)) {
    if cl.replies != [] then (cl.(replies := cl.replies[1..]), ToCommand(cl.replies[0]))
    else if p.Answer? && p.error then (cl, Teardown)
    else if !cl.flag then (cl, Unexpected)
    else Lookup(cl, p)
  }

  type Dict = map<seq<byte>, int>

  // The two dictionaries of the context as one table.
  ghost function Join(channels: Dict, patterns: Dict): (t: map<Channel, int>) {
    var keys := (set n | n in channels :: Channel(false, n)) + (set n | n in patterns :: Channel(true, n));
    map c | c in keys :: if c.pattern then patterns[c.name] else channels[c.name]
  }

  lemma JoinAt(channels: Dict, patterns: Dict, c: Channel)
    ensures var t, dict := Join(channels, patterns), if c.pattern then patterns else channels;
            (c in t <==> c.name in dict) && (c in t ==> t[c] == dict[c.name])
  {
  }

  // A table with the entries of the two dictionaries is their join.
  lemma JoinIs(channels: Dict, patterns: Dict, t: map<Channel, int>)
    requires forall c :: c in t <==> c.name in if c.pattern then patterns else channels
    requires forall c :: c in t ==> t[c] == if c.pattern then patterns[c.name] else channels[c.name]
    ensures Join(channels, patterns) == t
  {
    hide Join;
    var j := Join(channels, patterns);
    forall c: Channel
      ensures c in j <==> c in t
      ensures c in t ==> j[c] == t[c]
    {
      JoinAt(channels, patterns, c);
    }
  }

  lemma JoinAtAll(channels: Dict, patterns: Dict)
    ensures var t := Join(channels, patterns);
            && (forall c :: c in t <==> c.name in if c.pattern then patterns else channels)
            && forall c :: c in t ==> t[c] == if c.pattern then patterns[c.name] else channels[c.name]
  {
    hide Join;
    forall c: Channel
      ensures var t, dict := Join(channels, patterns), if c.pattern then patterns else channels;
              (c in t <==> c.name in dict) && (c in t ==> t[c] == dict[c.name])
    {
      JoinAt(channels, patterns, c);
    }
  }

  lemma JoinPut(channels: Dict, patterns: Dict, name: seq<byte>, n: int)
    ensures Join(channels[name := n], patterns) == Join(channels, patterns)[Channel(false, name) := n]
    ensures Join(channels, patterns[name := n]) == Join(channels, patterns)[Channel(true, name) := n]
  {
    hide Join;
    JoinAtAll(channels, patterns);
    JoinIs(channels[name := n], patterns, Join(channels, patterns)[Channel(false, name) := n]);
    JoinIs(channels, patterns[name := n], Join(channels, patterns)[Channel(true, name) := n]);
  }

  lemma JoinRemove(channels: Dict, patterns: Dict, name: seq<byte>)
    ensures Join(channels - {name}, patterns) == Remove(Join(channels, patterns), Channel(false, name))
    ensures Join(channels, patterns - {name}) == Remove(Join(channels, patterns), Channel(true, name))
  {
    hide Join;
    JoinAtAll(channels, patterns);
    JoinIs(channels - {name}, patterns, Remove(Join(channels, patterns), Channel(false, name)));
    JoinIs(channels, patterns - {name}, Remove(Join(channels, patterns), Channel(true, name)));
  }

  lemma JoinEmpty(channels: Dict, patterns: Dict)
    ensures Join(channels, patterns) == map[] <==> |channels| == 0 && |patterns| == 0
  {
    forall n: seq<byte>
      ensures n in channels <==> Channel(false, n) in Join(channels, patterns)
      ensures n in patterns <==> Channel(true, n) in Join(channels, patterns)
    {
    }
    assert |channels| == 0 <==> channels == map[];
    assert |patterns| == 0 <==> patterns == map[];
  }

  class Context {
    var flag: bool
    var channels: Dict
    var patterns: Dict
    var replies: seq<nat>
    var invalid: seq<nat>

    ghost function Abs(): (cl: Client)
      reads this
    {
      Client(flag, Join(channels, patterns), replies, invalid)
    }

    constructor ()
      ensures Abs() == Client(false, map[], [], [])
    {
      flag, channels, patterns, replies, invalid := false, map[], map[], [], [];
    }

    // The part of __redisAsyncCommand that keeps the books; one channel per command.
    method Command(r: Request) returns (ok: bool)
      modifies this
      ensures ok <==> old(Send(Abs(), r)).Some?
      ensures ok ==> Abs() == old(Send(Abs(), r)).value
      ensures !ok ==> Abs() == old(Abs())
    {
      hide Join;
      match r
      case Subscribe(c) =>
        JoinAt(channels, patterns, c);
        flag := true;
        var dict := if c.pattern then patterns else channels;
        var pending := 1;
        if c.name in dict {
          pending := dict[c.name] + 1;
        }
        JoinPut(channels, patterns, c.name, pending);
        if c.pattern {
          patterns := patterns[c.name := pending];
        } else {
          channels := channels[c.name := pending];
        }
        ok := true;
      case Unsubscribe(c) =>
        ok := flag;
      case Regular(id) =>
        if flag {
          invalid := invalid + [id];
        } else {
          replies := replies + [id];
        }
        ok := true;
    }

    // The dispatch of one reply in redisProcessCallbacks, with __redisGetSubscribeCallback.
    method Dispatch(p: Push) returns (target: Target)
      modifies this
      ensures (Abs(), target) == old(Receive(Abs(), p))
    {
      hide Join, Remove;
      if replies != [] {
        target := ToCommand(replies[0]);
        replies := replies[1..];
        return;
      }
      if p.Answer? && p.error {
        return Teardown;
      }
      if !flag {
        return Unexpected;
      }
      if p.Answer? {
        if invalid == [] {
          return Nobody;
        }
        target := ToCommand(invalid[0]);
        invalid := invalid[1..];
        return;
      }
      var dict := if p.c.pattern then patterns else channels;
      JoinAt(channels, patterns, p.c);
      if p.c.name !in dict {
        return Nobody;
      }
      target := ToChannel(p.c);
      match p
      case Message(_) =>
      case Subscribed(c, _) =>
        JoinPut(channels, patterns, c.name, dict[c.name] - 1);
        if c.pattern {
          patterns := patterns[c.name := patterns[c.name] - 1];
        } else {
          channels := channels[c.name := channels[c.name] - 1];
        }
      case Unsubscribed(c, total) =>
        JoinRemove(channels, patterns, c.name);
        if dict[c.name] == 0 {
          if c.pattern {
            patterns := patterns - {c.name};
          } else {
            channels := channels - {c.name};
          }
        }
        JoinEmpty(channels, patterns);
        if total == 0 && |channels| == 0 && |patterns| == 0 {
          flag := false;
        }
    }
  }

  // --- what is in flight ---

  // An exchange on its way: a request not yet processed, or what the server made of it.
  datatype Exchange = Sub(c: Channel) | Unsub(c: Channel) | Note(c: Channel) | Reg(id: nat)

  function OfPush(p: Push): Exchange {
    match p
    case Subscribed(c, _) => Sub(c)
    case Unsubscribed(c, _) => Unsub(c)
    case Message(c) => Note(c)
    case Answer(id, _) => Reg(id)
  }

  function OfRequest(r: Request): Exchange {
    match r
    case Subscribe(c) => Sub(c)
    case Unsubscribe(c) => Unsub(c)
    case Regular(id) => Reg(id)
  }

  function Pushes(s: seq<Push>): (e: seq<Exchange>)
    ensures |e| == |s| && forall i :: 0 <= i < |s| ==> e[i] == OfPush(s[i])
  {
    seq(|s|, i requires 0 <= i < |s| => OfPush(s[i]))
  }

  function Requests(s: seq<Request>): (e: seq<Exchange>)
    ensures |e| == |s| && forall i :: 0 <= i < |s| ==> e[i] == OfRequest(s[i])
  {
    seq(|s|, i requires 0 <= i < |s| => OfRequest(s[i]))
  }

  function Effect(cur: set<Channel>, e: Exchange): set<Channel> {
    match e
    case Sub(c) => cur + {c}
    case Unsub(c) => cur - {c}
    case _ => cur
  }

  function Fold(cur: set<Channel>, es: seq<Exchange>): set<Channel>
    decreases es
  {
    if es == [] then cur else Fold(Effect(cur, es[0]), es[1..])
  }

  // Unsubscribes and messages concern channels subscribed at that point.
  ghost predicate Legal(cur: set<Channel>, es: seq<Exchange>)
    decreases es
  {
    es == [] || ((es[0].Unsub? || es[0].Note? ==> es[0].c in cur) && Legal(Effect(cur, es[0]), es[1..]))
  }

  // Unconfirmed subscribes of c.
  function Unconfirmed(es: seq<Exchange>, c: Channel): nat {
    if es == [] then 0 else (if es[0] == Sub(c) then 1 else 0) + Unconfirmed(es[1..], c)
  }

  function Ids(es: seq<Exchange>): seq<nat> {
    if es == [] then [] else (if es[0].Reg? then [es[0].id] else []) + Ids(es[1..])
  }

  // The server has a subscription whenever it comes to a regular exchange.
  ghost predicate Covered(cur: set<Channel>, es: seq<Exchange>)
    decreases es
  {
    es == [] || ((es[0].Reg? ==> cur != {}) && Covered(Effect(cur, es[0]), es[1..]))
  }

  lemma {:induction false} Splits(cur: set<Channel>, a: seq<Exchange>, b: seq<Exchange>)
    ensures Fold(cur, a + b) == Fold(Fold(cur, a), b)
    ensures Legal(cur, a + b) <==> Legal(cur, a) && Legal(Fold(cur, a), b)
    ensures Covered(cur, a + b) <==> Covered(cur, a) && Covered(Fold(cur, a), b)
    ensures Ids(a + b) == Ids(a) + Ids(b)
    ensures forall c :: Unconfirmed(a + b, c) == Unconfirmed(a, c) + Unconfirmed(b, c)
    decreases a
  {
    if a == [] {
      assert a + b == b;
    } else {
      assert (a + b)[1..] == a[1..] + b;
      Splits(Effect(cur, a[0]), a[1..], b);
    }
  }

  // --- the system ---

  // confirmed: the server's subscriptions as the replies received so far tell them;
  // wanted: the channels whose last request was a subscribe.
  // closed: the client has closed the connection.
  datatype System = System(client: Client, toServer: seq<Request>, toClient: seq<Push>,
                           server: set<Channel>, confirmed: set<Channel>, wanted: set<Channel>, closed: bool)

  const START := System(Client(false, map[], [], []), [], [], {}, {}, {}, false)

  // Serve: the server comes to the next request; error tells how it answers a regular one.
  datatype Step = Ask(r: Request) | Serve(error: bool) | Publish(c: Channel) | Deliver

  // The client unsubscribes only what its last request on the channel subscribed, and sends no regular
  // command between having asked to leave its last channel and learning that it has.
  ghost predicate Enabled(s: System, step: Step) {
    !s.closed &&
    match step
    case Ask(Subscribe(_)) => true
    case Ask(Unsubscribe(c)) => c in s.wanted
    case Ask(Regular(_)) => !s.client.flag || s.wanted != {}
    case Serve(_) => s.toServer != []
    case Publish(c) => c in s.server
    case Deliver => s.toClient != []
  }

  function Reaction(server: set<Channel>, r: Request, error: bool): (set<Channel>, Push) {
    match r
    case Subscribe(c) => (server + {c}, Subscribed(c, |server + {c}|))
    case Unsubscribe(c) => (server - {c}, Unsubscribed(c, |server - {c}|))
    case Regular(id) => (server, Answer(id, error))
  }

  ghost function Next(s: System, step: Step): (s': System)
    requires Enabled(s, step)
  {
    match step
    case Ask(r) =>
      (match Send(s.client, r)
       case None => s
       case Some(client) => s.(client := client, toServer := s.toServer + [r],
                               wanted := Effect(s.wanted, OfRequest(r))))
    case Serve(error) =>
      var (server, p) := Reaction(s.server, s.toServer[0], error);
      s.(server := server, toServer := s.toServer[1..], toClient := s.toClient + [p])
    case Publish(c) => s.(toClient := s.toClient + [Message(c)])
    case Deliver =>
      var p := s.toClient[0];
      var (client, target) := Receive(s.client, p);
      s.(client := client, toClient := s.toClient[1..], confirmed := Effect(s.confirmed, OfPush(p)),
         closed := target == Teardown)
  }

  ghost function Flight(s: System): (es: seq<Exchange>) {
    Pushes(s.toClient) + Requests(s.toServer)
  }

  // The totals the server reports are those of its set at that moment.
  ghost predicate Totals(cur: set<Channel>, s: seq<Push>)
    decreases s
  {
    s == [] ||
    (var next := Effect(cur, OfPush(s[0]));
     (s[0].Subscribed? || s[0].Unsubscribed? ==> s[0].total == |next|) && Totals(next, s[1..]))
  }

  ghost predicate TableAgrees(client: Client, confirmed: set<Channel>, flight: seq<Exchange>) {
    && (client.flag <==> client.table != map[])
    && (forall c :: c in client.table <==> c in confirmed || Unconfirmed(flight, c) > 0)
    && (forall c :: c in client.table ==> client.table[c] == Unconfirmed(flight, c))
  }

  // The regular exchanges in flight: first those of commands sent before subscribing, which nothing else
  // precedes, then those of commands sent while subscribed, each covered by a subscription.
  ghost predicate RegularsAgree(client: Client, confirmed: set<Channel>, flight: seq<Exchange>) {
    var n := |client.replies|;
    && n <= |flight| && (forall i :: 0 <= i < n ==> flight[i].Reg?)
    && client.replies == Ids(flight[..n]) && client.invalid == Ids(flight[n..])
    && Covered(confirmed, flight[n..]) && (n > 0 ==> confirmed == {})
  }

  ghost predicate Inv(s: System) {
    var flight := Flight(s);
    && Fold(s.confirmed, Pushes(s.toClient)) == s.server
    && Fold(s.confirmed, flight) == s.wanted
    && Legal(s.confirmed, flight) && Totals(s.confirmed, s.toClient)
    && TableAgrees(s.client, s.confirmed, flight)
    && RegularsAgree(s.client, s.confirmed, flight)
  }

  lemma StartInv()
    ensures Inv(START)
  {
  }

  // With nothing but regular exchanges in flight, subscriptions do not change.
  lemma {:induction false} RegularsKeep(cur: set<Channel>, es: seq<Exchange>)
    requires forall i :: 0 <= i < |es| ==> es[i].Reg?
    ensures Fold(cur, es) == cur
  {
    if es != [] {
      RegularsKeep(cur, es[1..]);
    }
  }

  // A table that is empty leaves nothing but regular exchanges in flight.
  lemma {:induction false} QuietTable(cur: set<Channel>, es: seq<Exchange>)
    requires cur == {} && Legal(cur, es) && forall c :: Unconfirmed(es, c) == 0
    ensures forall i :: 0 <= i < |es| ==> es[i].Reg?
  {
    if es != [] {
      assert es[0].Sub? ==> Unconfirmed(es, es[0].c) > 0;
      assert forall c :: Unconfirmed(es[1..], c) == 0 by {
        assert forall c :: Unconfirmed(es, c) >= Unconfirmed(es[1..], c);
      }
      QuietTable(cur, es[1..]);
    }
  }

  // --- every step keeps the invariant ---

  lemma TotalsAppend(cur: set<Channel>, s: seq<Push>, p: Push)
    requires Totals(cur, s)
    requires var next := Effect(Fold(cur, Pushes(s)), OfPush(p)); p.Subscribed? || p.Unsubscribed? ==> p.total == |next|
    ensures Totals(cur, s + [p])
    decreases s
  {
    if s != [] {
      assert (s + [p])[1..] == s[1..] + [p];
      assert Pushes(s)[1..] == Pushes(s[1..]);
      TotalsAppend(Effect(cur, OfPush(s[0])), s[1..], p);
    }
  }

  function One(e: Exchange, c: Channel): nat {
    if e == Sub(c) then 1 else 0
  }

  lemma AtEnd(cur: set<Channel>, es: seq<Exchange>, e: Exchange)
    ensures Fold(cur, es + [e]) == Effect(Fold(cur, es), e)
    ensures Legal(cur, es + [e]) <==> Legal(cur, es) && (e.Unsub? || e.Note? ==> e.c in Fold(cur, es))
    ensures Covered(cur, es + [e]) <==> Covered(cur, es) && (e.Reg? ==> Fold(cur, es) != {})
    ensures Ids(es + [e]) == Ids(es) + if e.Reg? then [e.id] else []
    ensures forall c :: Unconfirmed(es + [e], c) == Unconfirmed(es, c) + One(e, c)
  {
    Splits(cur, es, [e]);
    assert Legal(Effect(Fold(cur, es), e), []) && [e][1..] == [];
    assert forall c :: Unconfirmed([e], c) == One(e, c);
  }

  lemma AtHead(cur: set<Channel>, es: seq<Exchange>)
    requires es != []
    ensures Fold(cur, es) == Fold(Effect(cur, es[0]), es[1..])
    ensures Legal(cur, es) <==> Legal(Effect(cur, es[0]), es[1..]) && (es[0].Unsub? || es[0].Note? ==> es[0].c in cur)
    ensures Covered(cur, es) <==> Covered(Effect(cur, es[0]), es[1..]) && (es[0].Reg? ==> cur != {})
    ensures Ids(es) == (if es[0].Reg? then [es[0].id] else []) + Ids(es[1..])
    ensures forall c :: Unconfirmed(es, c) == One(es[0], c) + Unconfirmed(es[1..], c)
  {
  }

  lemma NothingInFlight(cur: set<Channel>)
    ensures Fold(cur, []) == cur && Covered(cur, []) && Ids([]) == []
  {
  }

  // An unset flag means that only the exchanges of commands sent before subscribing are in flight.
  lemma UnsetFlag(s: System)
    requires Inv(s) && !s.client.flag
    ensures s.confirmed == s.wanted == {}
    ensures Flight(s)[|s.client.replies|..] == [] && s.client.invalid == []
  {
    hide Fold, Legal, Unconfirmed, Ids, Covered, Flight;
    var flight, n := Flight(s), |s.client.replies|;
    QuietTable(s.confirmed, flight);
    RegularsKeep(s.confirmed, flight);
    if flight[n..] != [] {
      assert flight[n..][0] == flight[n];
      AtHead(s.confirmed, flight[n..]);
    }
    NothingInFlight(s.confirmed);
  }

  // The regular exchanges when one more exchange is on its way.
  lemma RegularsAtEnd(client: Client, confirmed: set<Channel>, flight: seq<Exchange>, e: Exchange, after: Client)
    requires RegularsAgree(client, confirmed, flight) && (client.flag <==> client.table != map[])
    requires e.Reg? && client.flag ==> Fold(confirmed, flight) != {}
    requires !client.flag ==> confirmed == {} && flight[|client.replies|..] == []
    requires if !e.Reg? then after.replies == client.replies && after.invalid == client.invalid
             else if client.flag then after.replies == client.replies && after.invalid == client.invalid + [e.id]
             else after.replies == client.replies + [e.id] && after.invalid == client.invalid
    ensures RegularsAgree(after, confirmed, flight + [e])
  {
    hide Fold, Legal, Unconfirmed, Ids, Covered;
    var n := |client.replies|;
    assert flight == flight[..n] + flight[n..];
    Splits(confirmed, flight[..n], flight[n..]);
    RegularsKeep(confirmed, flight[..n]);
    if e.Reg? && !client.flag {
      assert flight[..n] == flight && (flight + [e])[..n + 1] == flight + [e] && (flight + [e])[n + 1..] == [];
      AtEnd(confirmed, flight, e);
      NothingInFlight(confirmed);
    } else {
      assert (flight + [e])[..n] == flight[..n] && (flight + [e])[n..] == flight[n..] + [e];
      AtEnd(confirmed, flight[n..], e);
    }
  }

  lemma AskKeeps(s: System, r: Request)
    requires Inv(s) && Enabled(s, Ask(r))
    ensures Send(s.client, r).Some? && Inv(Next(s, Ask(r)))
  {
    hide Fold, Legal, Unconfirmed, Ids, Totals, Covered, RegularsAgree, Flight, Pushes;
    var flight, e := Flight(s), OfRequest(r);
    if !s.client.flag {
      UnsetFlag(s);
    }
    FlightGrows(s, r);
    AtEnd(s.confirmed, flight, e);
    RegularsAtEnd(s.client, s.confirmed, flight, e, Send(s.client, r).value);
  }

  lemma FlightGrows(s: System, r: Request)
    requires Enabled(s, Ask(r)) && Send(s.client, r).Some?
    ensures Flight(Next(s, Ask(r))) == Flight(s) + [OfRequest(r)]
  {
    assert Requests(s.toServer + [r]) == Requests(s.toServer) + [OfRequest(r)];
  }

  lemma ServeKeeps(s: System, error: bool)
    requires Inv(s) && Enabled(s, Serve(error))
    ensures Inv(Next(s, Serve(error)))
  {
    hide Fold, Legal, Unconfirmed, Ids, Totals, Covered, RegularsAgree;
    var r := s.toServer[0];
    var (server, p) := Reaction(s.server, r, error);
    assert OfPush(p) == OfRequest(r);
    assert Pushes(s.toClient + [p]) == Pushes(s.toClient) + [OfPush(p)];
    assert Flight(Next(s, Serve(error))) == Flight(s);
    AtEnd(s.confirmed, Pushes(s.toClient), OfPush(p));
    TotalsAppend(s.confirmed, s.toClient, p);
  }

  // A message slips in behind the replies already sent; the channel is subscribed there.
  lemma PublishKeeps(s: System, c: Channel)
    requires Inv(s) && Enabled(s, Publish(c))
    ensures Inv(Next(s, Publish(c)))
  {
    hide Fold, Legal, Unconfirmed, Ids, Totals, Covered, RegularsAgree;
    var before, after := Pushes(s.toClient), Requests(s.toServer);
    assert Pushes(s.toClient + [Message(c)]) == before + [Note(c)];
    assert Flight(Next(s, Publish(c))) == before + [Note(c)] + after;
    AtEnd(s.confirmed, before, Note(c));
    Splits(s.confirmed, before, after);
    Splits(s.confirmed, before + [Note(c)], after);
    TotalsAppend(s.confirmed, s.toClient, Message(c));
    RegularsAround(s.client, s.confirmed, before, after, c);
    var flight := Flight(Next(s, Publish(c)));
    assert forall e: Channel :: Unconfirmed(flight, e) == Unconfirmed(Flight(s), e);
  }

  lemma RegularsAround(client: Client, confirmed: set<Channel>, before: seq<Exchange>, after: seq<Exchange>, c: Channel)
    requires RegularsAgree(client, confirmed, before + after) && c in Fold(confirmed, before)
    ensures RegularsAgree(client, confirmed, before + [Note(c)] + after)
  {
    hide Fold, Ids, Covered, Unconfirmed, Legal;
    var n, flight := |client.replies|, before + after;
    if n > |before| {
      assert forall i :: 0 <= i < |before| ==> before[i] == flight[i];
      RegularsKeep(confirmed, before);
      assert false;
    }
    var early, late := before[..n], before[n..];
    assert flight[..n] == early && flight[n..] == late + after;
    var grown := before + [Note(c)] + after;
    assert grown[..n] == early && grown[n..] == late + [Note(c)] + after;
    Splits(confirmed, late, after);
    AtEnd(confirmed, late, Note(c));
    Splits(confirmed, late + [Note(c)], after);
  }

  // The parts of the invariant that do not look into the client.
  lemma HeadLeaves(s: System)
    requires Inv(s) && Enabled(s, Deliver)
    ensures var p, flight, s' := s.toClient[0], Flight(s), Next(s, Deliver);
            && flight != [] && flight[0] == OfPush(p) && Flight(s') == flight[1..]
            && Fold(s'.confirmed, Pushes(s'.toClient)) == s'.server
            && Fold(s'.confirmed, flight[1..]) == s'.wanted
            && Legal(s'.confirmed, flight[1..]) && Totals(s'.confirmed, s'.toClient)
            && (p.Unsubscribed? || p.Message? ==> p.c in s.confirmed)
            && (p.Unsubscribed? ==> p.total == |s.confirmed - {p.c}|)
  {
    hide Fold, Legal, Unconfirmed, Ids, Totals, Covered, RegularsAgree;
    var flight := Flight(s);
    assert Pushes(s.toClient)[1..] == Pushes(s.toClient[1..]);
    assert Flight(Next(s, Deliver)) == flight[1..];
    AtHead(s.confirmed, flight);
    AtHead(s.confirmed, Pushes(s.toClient));
    TotalsHead(s.confirmed, s.toClient);
  }

  // Whom a reply or a message is for: the answer to a regular command that command; anything else the
  // entry of its channel. An error that answers a command sent while subscribed is for nobody.
  function Addressee(cl: Client, p: Push): Target {
    if !p.Answer? then ToChannel(p.c)
    else if p.error && cl.replies == [] then Teardown
    else ToCommand(p.id)
  }

  // What arrives finds its addressee, with the flag still set where it is needed.
  lemma DeliverKeeps(s: System)
    requires Inv(s) && Enabled(s, Deliver)
    ensures var p := s.toClient[0];
            && ((p.Answer? && s.client.replies != []) || s.client.flag)
            && Receive(s.client, p).1 == Addressee(s.client, p)
    ensures !Next(s, Deliver).closed ==> Inv(Next(s, Deliver))
  {
    hide Fold, Legal, Unconfirmed, Ids, Totals, Covered, Flight;
    var p, flight := s.toClient[0], Flight(s);
    HeadLeaves(s);
    AtHead(s.confirmed, flight);
    RegularsAtHead(s.client, s.confirmed, flight);
    if p.Answer? {
      assert forall c :: Unconfirmed(flight[1..], c) == Unconfirmed(flight, c);
    } else {
      TableStep(s.client, s.confirmed, flight, p);
    }
  }

  lemma RegularsAtHead(client: Client, confirmed: set<Channel>, flight: seq<Exchange>)
    requires RegularsAgree(client, confirmed, flight) && flight != []
    ensures client.replies != [] ==>
              && flight[0] == Reg(client.replies[0])
              && RegularsAgree(client.(replies := client.replies[1..]), confirmed, flight[1..])
    ensures client.replies == [] && flight[0].Reg? ==>
              && confirmed != {} && client.invalid != [] && flight[0] == Reg(client.invalid[0])
              && RegularsAgree(client.(invalid := client.invalid[1..]), confirmed, flight[1..])
    ensures client.replies == [] && !flight[0].Reg? ==>
              forall after: Client :: after.replies == client.replies && after.invalid == client.invalid ==>
                                        RegularsAgree(after, Effect(confirmed, flight[0]), flight[1..])
  {
    hide Ids, Covered;
    var n := |client.replies|;
    if n > 0 {
      assert flight[..n][1..] == flight[1..][..n - 1] && flight[n..] == flight[1..][n - 1..];
      AtHead(confirmed, flight[..n]);
      assert flight[0].Reg?;
    } else {
      assert flight[..0] == [] == flight[1..][..0] && flight[0..] == flight && flight[1..][0..] == flight[1..];
      AtHead(confirmed, flight);
      NothingInFlight(confirmed);
    }
  }

  lemma TableStep(cl: Client, confirmed: set<Channel>, flight: seq<Exchange>, p: Push)
    requires TableAgrees(cl, confirmed, flight) && flight != [] && flight[0] == OfPush(p) && !p.Answer?
    requires p.Unsubscribed? || p.Message? ==> p.c in confirmed
    requires p.Unsubscribed? ==> p.total == |confirmed - {p.c}|
    ensures p.c in cl.table && cl.flag
    ensures TableAgrees(Lookup(cl, p).0, Effect(confirmed, OfPush(p)), flight[1..])
  {
    hide Fold, Legal, Unconfirmed, Ids;
    AtHead(confirmed, flight);
    var cl', rest := Lookup(cl, p).0, flight[1..];
    assert p.c in cl.table && cl.table != map[];
    forall c: Channel
      ensures c in cl'.table <==> c in Effect(confirmed, OfPush(p)) || Unconfirmed(rest, c) > 0
      ensures c in cl'.table ==> cl'.table[c] == Unconfirmed(rest, c)
    {
    }
    if p.Unsubscribed? {
      assert confirmed - {p.c} <= cl'.table.Keys;
      assert confirmed - {p.c} == {} ==> p.total == 0;
    }
  }

  lemma TotalsHead(cur: set<Channel>, s: seq<Push>)
    requires s != [] && Totals(cur, s)
    ensures var next := Effect(cur, OfPush(s[0]));
            (s[0].Subscribed? || s[0].Unsubscribed? ==> s[0].total == |next|) && Totals(next, s[1..])
  {
  }

  // --- whole runs ---

  // A run: every step is enabled in the state before it.
  ghost predicate IsRun(states: seq<System>, steps: seq<Step>) {
    && |states| == |steps| + 1 && states[0] == START
    && forall i :: 0 <= i < |steps| ==> Enabled(states[i], steps[i]) && states[i + 1] == Next(states[i], steps[i])
  }

  lemma {:induction false} EveryStateAgrees(states: seq<System>, steps: seq<Step>, n: nat)
    requires IsRun(states, steps) && n < |states| && !states[n].closed
    ensures Inv(states[n])
    decreases n
  {
    if n == 0 {
      StartInv();
    } else {
      EveryStateAgrees(states, steps, n - 1);
      match steps[n - 1]
      case Ask(r) => AskKeeps(states[n - 1], r);
      case Serve(error) => ServeKeeps(states[n - 1], error);
      case Publish(c) => PublishKeeps(states[n - 1], c);
      case Deliver => DeliverKeeps(states[n - 1]);
    }
  }

  // In every reachable state pending_subs counts the unconfirmed subscribes, a channel re-subscribed behind
  // an unsubscribe keeps its entry, what arrives is dispatched to its addressee, and an UNSUBSCRIBE the
  // client may send is not refused.
  lemma TableAgreement(states: seq<System>, steps: seq<Step>, n: nat)
    requires IsRun(states, steps) && n < |states| && !states[n].closed
    ensures var s := states[n];
            && (forall c :: c in s.client.table ==> s.client.table[c] == Unconfirmed(Flight(s), c))
            && (forall c :: Unconfirmed(Flight(s), c) > 0 ==> c in s.client.table)
            && (s.toClient != [] ==> Receive(s.client, s.toClient[0]).1 == Addressee(s.client, s.toClient[0]))
            && (forall c :: c in s.wanted ==> Send(s.client, Unsubscribe(c)).Some?)
  {
    var s := states[n];
    EveryStateAgrees(states, steps, n);
    if s.toClient != [] {
      DeliverKeeps(s);
    }
    forall c | c in s.wanted
      ensures Send(s.client, Unsubscribe(c)).Some?
    {
      AskKeeps(s, Unsubscribe(c));
    }
  }

  // With nothing in flight the table, the server and the client's wishes are the same
  // set, nothing is pending, and the flag says whether the set is empty.
  lemma AgreementWhenQuiet(states: seq<System>, steps: seq<Step>, n: nat)
    requires IsRun(states, steps) && n < |states| && !states[n].closed
    requires states[n].toServer == [] && states[n].toClient == []
    ensures var s := states[n];
            && s.client.table.Keys == s.server == s.wanted
            && (forall c :: c in s.client.table ==> s.client.table[c] == 0)
            && (s.client.flag <==> s.server != {}) && s.client.replies == [] && s.client.invalid == []
  {
    EveryStateAgrees(states, steps, n);
    QuietState(states[n]);
  }

  lemma QuietState(s: System)
    requires Inv(s) && s.toServer == [] && s.toClient == []
    ensures s.client.table.Keys == s.server == s.wanted == s.confirmed
    ensures forall c :: c in s.client.table ==> s.client.table[c] == 0
    ensures (s.client.flag <==> s.server != {}) && s.client.replies == [] && s.client.invalid == []
  {
    assert Flight(s) == [] && Pushes([]) == [];
    assert forall c :: c in s.client.table.Keys <==> c in s.server;
  }

  // --- regular commands sent too late ---

  // The state after a regular command that is sent although it may not be: the flag is set, but every
  // channel has been asked to be left.
  function Late(s: System, id: nat): System {
    s.(client := s.client.(invalid := s.client.invalid + [id]), toServer := s.toServer + [Regular(id)])
  }

  ghost predicate Leads(s: System, steps: seq<Step>, t: System)
    decreases steps
  {
    if steps == [] then s == t
    else Enabled(s, steps[0]) && Leads(Next(s, steps[0]), steps[1..], t)
  }

  ghost predicate NoErrors(pushes: seq<Push>) {
    forall p :: p in pushes && p.Answer? ==> !p.error
  }

  // Its answer then fails the assertion, unless an error closes the connection before: once everything
  // else has been answered, the flag is unset and the queue of the command is not looked at.
  lemma {:induction false} LateRegularFails(s: System, id: nat) returns (steps: seq<Step>, t: System)
    requires Inv(s) && !s.closed && s.client.flag && s.wanted == {} && NoErrors(s.toClient)
    ensures Send(s.client, Regular(id)) == Some(Late(s, id).client)
    ensures Leads(Late(s, id), steps, t) && t.toClient == [Answer(id, false)]
    ensures Receive(t.client, t.toClient[0]).1 == Unexpected
  {
    steps, t := LateRegularArrives(s, id);
  }

  lemma {:induction false} LateRegularArrives(s: System, id: nat) returns (steps: seq<Step>, t: System)
    requires Inv(s) && !s.closed && s.wanted == {} && NoErrors(s.toClient)
    ensures Leads(Late(s, id), steps, t) && t.toClient == [Answer(id, false)]
    ensures Receive(t.client, t.toClient[0]).1 == Unexpected
    decreases 2 * |s.toServer| + |s.toClient|
  {
    hide Inv;
    if s.toClient != [] {
      assert s.toClient[0] in s.toClient;
      DeliverKeeps(s);
      var rest;
      rest, t := LateRegularArrives(Next(s, Deliver), id);
      LateDelivers(s, id);
      steps := [Deliver] + rest;
      assert steps[1..] == rest;
    } else if s.toServer != [] {
      ServeKeeps(s, false);
      var rest;
      rest, t := LateRegularArrives(Next(s, Serve(false)), id);
      assert (s.toServer + [Regular(id)])[1..] == s.toServer[1..] + [Regular(id)];
      assert Next(Late(s, id), Serve(false)) == Late(Next(s, Serve(false)), id);
      steps := [Serve(false)] + rest;
      assert steps[1..] == rest;
    } else {
      QuietState(s);
      steps, t := [Serve(false)], Next(Late(s, id), Serve(false));
      assert steps[1..] == [];
    }
  }

  lemma LateDelivers(s: System, id: nat)
    requires Inv(s) && Enabled(s, Deliver)
    ensures Next(Late(s, id), Deliver) == Late(Next(s, Deliver), id)
  {
  }
}
