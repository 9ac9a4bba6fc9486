/** The machine is chunk independent, agrees with the grammar, and inverts the encoder. */
module RespTheorems {
  import opened Bytes
  import opened Decimal
  import opened Resp

  // --- chunk independence ---

  lemma NewlineExtends(u: seq<byte>, v: seq<byte>)
    requires Newline(u).Some?
    ensures Newline(u + v) == Newline(u)
  {
    var i := Newline(u).value;
    assert NewlineAt(u + v, i);
    forall j | 0 <= j < i
      ensures !NewlineAt(u + v, j)
    {
      assert !NewlineAt(u, j);
    }
  }

  // More input never changes an item that was already decided.
  lemma ItemExtends(env: Env, ty: ItemType, depth: nat, u: seq<byte>, v: seq<byte>)
    requires !ItemAt(env, ty, depth, u).Wait?
    ensures ItemAt(env, ty, depth, u + v) == ItemAt(env, ty, depth, u)
  {
    if !(ty.TAggregate? && depth == MAX_OPEN) {
      NewlineExtends(u, v);
      var i := Newline(u).value;
      assert (u + v)[..i] == u[..i];
      if ty.TString? && ParseInt(u[..i]).Some? && ParseInt(u[..i]).value >= 0 {
        var at, len := i + 2, ParseInt(u[..i]).value;
        assert (u + v)[at..at + len] == u[at..at + len];
      }
    }
  }

  // A step that got somewhere is repeated exactly on a longer input.
  lemma StepExtends(env: Env, st: State, u: seq<byte>, v: seq<byte>)
    requires !Step(env, st, u).Stuck?
    ensures Step(env, st, u + v) == Step(env, st, u)
  {
    if st.pending.Some? {
      ItemExtends(env, st.pending.value, |st.stack|, u, v);
    } else if TypeOf(u[0]).Some? {
      assert (u + v)[1..] == u[1..] + v;
      ItemExtends(env, TypeOf(u[0]).value, |st.stack|, u[1..], v);
    }
  }

  // A step that ran out of input can be resumed from what it left behind.
  lemma StepResumes(env: Env, st: State, u: seq<byte>, v: seq<byte>)
    requires Step(env, st, u).Stuck?
    ensures var o := Step(env, st, u); Run(env, st, u + v) == Run(env, o.st, u[o.used..] + v)
  {
    hide Run, Step, Prepend;
    var o := Step(env, st, u);
    StuckKeepsType(env, st, u, v);
    if o.used == 0 {
      assert u[0..] == u;
    } else {
      assert u[1..] + v == (u + v)[1..];
      RunUnfolds(env, o.st, u[1..] + v);
      RunUnfolds(env, st, u + v);
      ShiftedOnce(Step(env, o.st, u[1..] + v), u[1..] + v, u + v);
    }
  }

  // What is left behind is the type byte of the item, if there was one.
  lemma StuckKeepsType(env: Env, st: State, u: seq<byte>, v: seq<byte>)
    requires Step(env, st, u).Stuck?
    ensures var o := Step(env, st, u);
            if o.used == 0 then o.st == st
            else o.used == 1 && |u| > 0 && Step(env, st, u + v) == Shift(Step(env, o.st, u[1..] + v), 1)
  {
    hide ItemAt;
    if u != [] {
      assert u[1..] + v == (u + v)[1..] && (u + v)[0] == u[0];
    }
  }

  lemma ShiftedOnce(o: Outcome, u: seq<byte>, w: seq<byte>)
    requires w != [] && w[1..] == u
    ensures match o
            case Moved(_, used, _) => used <= |u| ==> w[Shift(o, 1).used..] == u[used..]
            case Stuck(_, used) => used <= |u| ==> w[Shift(o, 1).used..] == u[used..]
            case Broken(_) => Shift(o, 1) == o
  {
  }

  // What happens when more input arrives after a run.
  ghost function Continue(env: Env, r: Result, v: seq<byte>): (r': Result) {
    match r.end
    case Failed(_) => r
    case Waiting(st, rest) => var more := Run(env, st, rest + v); Result(r.replies + more.replies, more.end)
  }

  lemma ContinuePrepends(env: Env, out: Option<Reply>, r: Result, v: seq<byte>)
    ensures Continue(env, Prepend(out, r), v) == Prepend(out, Continue(env, r, v))
  {
    if out.Some? && r.end.Waiting? {
      var more := Run(env, r.end.st, r.end.rest + v).replies;
      assert [out.value] + r.replies + more == [out.value] + (r.replies + more);
    }
  }

  // One step of a run.
  lemma RunUnfolds(env: Env, st: State, u: seq<byte>)
    ensures var o := Step(env, st, u);
            Run(env, st, u) == match o
                               case Moved(st', used, out) => Prepend(out, Run(env, st', u[used..]))
                               case Stuck(st', used) => Result([], Waiting(st', u[used..]))
                               case Broken(fault) => Result([], Failed(fault))
  {
    hide Step, Prepend;
  }

  lemma {:induction false} RunSplits(env: Env, st: State, u: seq<byte>, v: seq<byte>)
    ensures Run(env, st, u + v) == Continue(env, Run(env, st, u), v)
    decreases |u|
  {
    hide Step, Prepend;
    RunUnfolds(env, st, u);
    var o := Step(env, st, u);
    if o.Stuck? {
      StepResumes(env, st, u, v);
    } else {
      StepExtends(env, st, u, v);
      RunUnfolds(env, st, u + v);
      if o.Moved? {
        var u' := u[o.used..];
        assert (u + v)[o.used..] == u' + v;
        RunSplits(env, o.st, u', v);
        ContinuePrepends(env, o.out, Run(env, o.st, u'), v);
      }
    }
  }

  // Feeding chunk after chunk, draining after each one.
  ghost function FeedAll(env: Env, r: Result, chunks: seq<seq<byte>>): (r': Result)
    decreases |chunks|
  {
    if chunks == [] then r else FeedAll(env, Continue(env, r, chunks[0]), chunks[1..])
  }

  lemma FeedAllUnfolds(env: Env, r: Result, chunks: seq<seq<byte>>)
    ensures FeedAll(env, r, chunks)
            == if chunks == [] then r else FeedAll(env, Continue(env, r, chunks[0]), chunks[1..])
  {
  }

  const NOTHING_YET := Result([], Waiting(INITIAL, []))

  lemma {:induction false} FeedAllFrom(env: Env, r: Result, chunks: seq<seq<byte>>)
    requires r.end.Waiting? ==> Run(env, r.end.st, r.end.rest) == Result([], r.end)
    ensures FeedAll(env, r, chunks) == Continue(env, r, Concat(chunks))
    decreases |chunks|
  {
    hide Run, Continue, Concat, FeedAll;
    FeedAllUnfolds(env, r, chunks);
    ConcatUnfolds(chunks);
    if chunks == [] {
      ContinueNothing(env, r);
    } else {
      ContinueSettles(env, r, chunks[0]);
      FeedAllFrom(env, Continue(env, r, chunks[0]), chunks[1..]);
      ContinueTwice(env, r, chunks[0], Concat(chunks[1..]));
    }
  }

  lemma ConcatUnfolds(parts: seq<seq<byte>>)
    ensures Concat(parts) == if parts == [] then [] else parts[0] + Concat(parts[1..])
  {
  }

  lemma ContinueNothing(env: Env, r: Result)
    requires r.end.Waiting? ==> Run(env, r.end.st, r.end.rest) == Result([], r.end)
    ensures Continue(env, r, []) == r
  {
    hide Run;
    if r.end.Waiting? {
      assert r.end.rest + [] == r.end.rest && r.replies + [] == r.replies;
    }
  }

  lemma ContinueSettles(env: Env, r: Result, v: seq<byte>)
    ensures var end := Continue(env, r, v).end; end.Waiting? ==> Run(env, end.st, end.rest) == Result([], end)
  {
    hide Run;
    if r.end.Waiting? {
      StuckStaysStuck(env, r.end.st, r.end.rest + v);
    }
  }

  lemma ContinueTwice(env: Env, r: Result, v: seq<byte>, w: seq<byte>)
    ensures Continue(env, Continue(env, r, v), w) == Continue(env, r, v + w)
  {
    hide Run;
    if r.end.Waiting? {
      var st, u := r.end.st, r.end.rest;
      RunSplits(env, st, u + v, w);
      assert u + v + w == u + (v + w);
      var first := Run(env, st, u + v);
      if first.end.Waiting? {
        var second := Run(env, first.end.st, first.end.rest + w);
        assert r.replies + first.replies + second.replies == r.replies + (first.replies + second.replies);
      }
    }
  }

  // Where a run stops, running again without new input does nothing.
  lemma {:induction false} StuckStaysStuck(env: Env, st: State, u: seq<byte>)
    ensures var end := Run(env, st, u).end; end.Waiting? ==> Run(env, end.st, end.rest) == Result([], end)
    decreases |u|
  {
    match Step(env, st, u)
    case Broken(_) =>
    case Moved(st', used, out) => StuckStaysStuck(env, st', u[used..]);
    case Stuck(st', used) =>
      if used == 0 {
        assert u[0..] == u;
      } else {
        assert Step(env, st', u[used..]) == Stuck(st', 0);
        assert u[used..][0..] == u[used..];
      }
  }

  // However the bytes are cut up, the replies and the final error are the same.
  lemma ChunkIndependence(env: Env, chunks: seq<seq<byte>>)
    ensures FeedAll(env, NOTHING_YET, chunks) == Run(env, INITIAL, Concat(chunks))
  {
    FeedAllFrom(env, NOTHING_YET, chunks);
    assert [] + Concat(chunks) == Concat(chunks);
  }

  // --- the task stack refines the grammar ---

  // Deliver a reply, then carry on with the rest.
  ghost function After(env: Env, stack: seq<Frame>, reply: Reply, rest: seq<byte>): (r: Result) {
    var (stack', out) := Deliver(stack, reply);
    Prepend(out, Run(env, State(stack', None), rest))
  }

  ghost predicate Agrees<T>(r: Result, p: Parse<T>) {
    match p
    case Done(_, _) => true
    case Short => r.replies == [] && r.end.Waiting?
    case Wrong(fault) => r == Result([], Failed(fault))
  }

  lemma {:induction false} MachineParses(env: Env, stack: seq<Frame>, u: seq<byte>)
    requires GoodState(State(stack, None))
    ensures var r, p := Run(env, State(stack, None), u), ParseReply(env, |stack|, u);
            Agrees(r, p) && (p.Done? ==> r == After(env, stack, p.value, p.rest))
    decreases |u|, 0
  {
    hide ItemAt, Deliver, Run, ParseMany;
    RunUnfolds(env, State(stack, None), u);
    if u != [] && TypeOf(u[0]).Some? {
      match ItemAt(env, TypeOf(u[0]).value, |stack|, u[1..])
      case Wait =>
      case Bad(_) =>
      case Leaf(_, used) =>
        assert Step(env, State(stack, None), u).used == used + 1;
      case Open(kind, count, used) =>
        var grown := stack + [Frame(kind, count, [])];
        assert Step(env, State(stack, None), u) == Moved(State(grown, None), used + 1, None);
        MachineParsesMany(env, grown, u[1 + used..]);
        assert grown[..|stack|] == stack;
        var p := ParseMany(env, |grown|, count, u[1 + used..]);
        if p.Done? {
          assert [] + p.value == p.value;
        }
    }
  }

  // With an open aggregate on top, the machine reads the elements it still lacks.
  lemma {:induction false} MachineParsesMany(env: Env, stack: seq<Frame>, u: seq<byte>)
    requires GoodState(State(stack, None)) && stack != []
    ensures var top, below := stack[|stack| - 1], stack[..|stack| - 1];
            var r, p := Run(env, State(stack, None), u), ParseMany(env, |stack|, top.count - |top.done|, u);
            Agrees(r, p)
            && (p.Done? ==> r == After(env, below, Aggregate(top.kind, top.done + p.value), p.rest))
    decreases |u|, 1
  {
    hide ParseReply, Run;
    var top, below := stack[|stack| - 1], stack[..|stack| - 1];
    var lacking := top.count - |top.done|;
    MachineParses(env, stack, u);
    var p := ParseReply(env, |stack|, u);
    if p.Done? {
      var done := top.done + [p.value];
      if lacking == 1 {
        assert ParseMany(env, |stack|, 0, p.rest) == Done([], p.rest);
        assert [p.value] + [] == [p.value];
      } else {
        var stack' := below + [top.(done := done)];
        assert stack'[..|stack'| - 1] == below;
        MachineParsesMany(env, stack', p.rest);
        var q := ParseMany(env, |stack|, lacking - 1, p.rest);
        if q.Done? {
          assert done + q.value == top.done + ([p.value] + q.value);
        }
      }
    }
  }

  // The grammar's reading of a whole input: the replies in it, and how it ends.
  ghost function ParseAll(env: Env, u: seq<byte>): (r: (seq<Reply>, Option<Fault>))
    decreases |u|
  {
    match ParseReply(env, 0, u)
    case Short => ([], None)
    case Wrong(fault) => ([], Some(fault))
    case Done(reply, rest) => var more := ParseAll(env, rest); ([reply] + more.0, more.1)
  }

  ghost predicate SameAs(r: Result, p: (seq<Reply>, Option<Fault>)) {
    r.replies == p.0 && (if p.1.Some? then r.end == Failed(p.1.value) else r.end.Waiting?)
  }

  // On every byte string the machine emits the replies the grammar finds, and fails
  // exactly when, and with the error with which, the grammar fails.
  lemma {:induction false} MachineRefinesGrammar(env: Env, u: seq<byte>)
    ensures SameAs(Run(env, INITIAL, u), ParseAll(env, u))
    decreases |u|
  {
    MachineParses(env, [], u);
    var p := ParseReply(env, 0, u);
    if p.Done? {
      MachineRefinesGrammar(env, p.rest);
    }
  }

  // --- the encoder and the round trip ---

  // The line a reply starts with.
  function LineOf(reply: Reply): seq<byte>
    requires !reply.Aggregate?
  {
    match reply
    case Status(text) => text
    case Error(text) => text
    case Str(text) => Dec(|text|)
    case Integer(n) => Dec(n)
    case Double(text) => text
    case Nil => []
    case Bool(b) => if b then [116] else [102]
  }

  function Payload(reply: Reply): seq<byte>
    requires !reply.Aggregate?
  {
    LineOf(reply) + CRLF + if reply.Str? then reply.text + CRLF else []
  }

  function TypeOfReply(reply: Reply): ItemType {
    match reply
    case Status(_) => TStatus
    case Error(_) => TError
    case Str(_) => TString
    case Integer(_) => TInteger
    case Double(_) => TDouble
    case Nil => TNil
    case Bool(_) => TBool
    case Aggregate(kind, _) => TAggregate(kind)
  }

  function Encode(reply: Reply): (s: seq<byte>)
    decreases reply, 1
  {
    [MarkerOf(TypeOfReply(reply))] +
    if reply.Aggregate? then
      Dec(if reply.kind == Map then |reply.elements| / 2 else |reply.elements|) + CRLF + EncodeMany(reply.elements)
    else Payload(reply)
  }

  function EncodeMany(replies: seq<Reply>): (s: seq<byte>)
    decreases replies, 0
  {
    if replies == [] then [] else Encode(replies[0]) + EncodeMany(replies[1..])
  }

  ghost predicate NoNewline(text: seq<byte>) {
    forall i :: !NewlineAt(text, i)
  }

  // The replies a server can send.
  ghost predicate Sendable(env: Env, reply: Reply)
    decreases reply, 1
  {
    match reply
    case Status(text) => NoNewline(text)
    case Error(text) => NoNewline(text)
    case Str(text) => Int64(|text|)
    case Integer(n) => Int64(n)
    case Double(text) => NoNewline(text) && |text| < DOUBLE_BUFFER && IsDouble(env, text)
    case Nil => true
    case Bool(_) => true
    case Aggregate(kind, elements) =>
      && (kind == Map ==> |elements| % 2 == 0)
      && |elements| <= env.limit && Int64(|elements|)
      && SendableMany(env, elements)
  }

  ghost predicate SendableMany(env: Env, replies: seq<Reply>)
    decreases replies, 0
  {
    replies == [] || (Sendable(env, replies[0]) && SendableMany(env, replies[1..]))
  }

  // How many aggregates are open at once while reading the reply.
  ghost function Nesting(reply: Reply): (n: nat)
    decreases reply, 1
  {
    if reply.Aggregate? then 1 + NestingMany(reply.elements) else 0
  }

  ghost function NestingMany(replies: seq<Reply>): (n: nat)
    decreases replies, 0
  {
    if replies == [] then 0
    else
      var first, others := Nesting(replies[0]), NestingMany(replies[1..]);
      if first > others then first else others
  }

  lemma LineEnds(line: seq<byte>, rest: seq<byte>)
    requires NoNewline(line)
    ensures Newline(line + CRLF + rest) == Some(|line|)
  {
    var u := line + CRLF + rest;
    assert NewlineAt(u, |line|);
    forall j | 0 <= j < |line|
      ensures !NewlineAt(u, j)
    {
      assert !NewlineAt(line, j);
      if j == |line| - 1 {
        assert u[j + 1] == CR;
      }
    }
  }

  lemma DecHasNoNewline(n: int)
    ensures NoNewline(Dec(n))
  {
    if n < 0 {
      forall i | 0 <= i < |Dec(n)|
        ensures Dec(n)[i] != LF
      {
        if i > 0 {
          assert Dec(n)[i] == Dec(n)[1..][i - 1];
        }
      }
    }
  }

  // The first line of what follows the marker, and where the rest starts.
  lemma LeadingLine(line: seq<byte>, rest: seq<byte>)
    requires NoNewline(line)
    ensures var u := line + CRLF + rest;
            Newline(u) == Some(|line|) && u[..|line|] == line && u[|line| + 2..] == rest
  {
    LineEnds(line, rest);
  }

  lemma LineOfHasNoNewline(env: Env, reply: Reply)
    requires Sendable(env, reply) && !reply.Aggregate?
    ensures NoNewline(LineOf(reply))
  {
    match reply
    case Str(text) => DecHasNoNewline(|text|);
    case Integer(n) => DecHasNoNewline(n);
    case _ =>
  }

  lemma LineItemReads(env: Env, reply: Reply)
    requires Sendable(env, reply) && !reply.Aggregate? && !reply.Str?
    ensures LineItem(env, TypeOfReply(reply), LineOf(reply)) == Leaf(reply, |Payload(reply)|)
  {
    hide IsDouble, Dec;
    if reply.Integer? {
      ParseIntOfDec(reply.n);
    }
  }

  lemma LeafReads(env: Env, depth: nat, reply: Reply, rest: seq<byte>)
    requires Sendable(env, reply) && !reply.Aggregate?
    ensures var u := Payload(reply) + rest;
            ItemAt(env, TypeOfReply(reply), depth, u) == Leaf(reply, |Payload(reply)|)
  {
    hide Newline, Dec, LineItem, LineOf;
    var line, u := LineOf(reply), Payload(reply) + rest;
    var tail := (if reply.Str? then reply.text + CRLF else []) + rest;
    assert u == line + CRLF + tail;
    LineOfHasNoNewline(env, reply);
    LeadingLine(line, tail);
    if reply.Str? {
      StrReads(env, reply.text, rest);
    } else {
      LineItemReads(env, reply);
    }
  }

  lemma StrReads(env: Env, text: seq<byte>, rest: seq<byte>)
    requires Int64(|text|)
    ensures LineOf(Str(text)) == Dec(|text|)
    ensures BulkItem(Dec(|text|), Payload(Str(text)) + rest) == Leaf(Str(text), |Payload(Str(text))|)
  {
    hide Dec;
    ParseIntOfDec(|text|);
    var u, at := Payload(Str(text)) + rest, |Dec(|text|)| + 2;
    assert u == Dec(|text|) + CRLF + text + CRLF + rest;
    assert u[at..at + |text|] == text;
  }

  lemma HeaderReads(env: Env, depth: nat, reply: Reply, rest: seq<byte>)
    requires Sendable(env, reply) && reply.Aggregate? && depth < MAX_OPEN
    ensures var n := |reply.elements|;
            var header := Dec(if reply.kind == Map then n / 2 else n) + CRLF;
            (header + rest)[|header|..] == rest
            && ItemAt(env, TypeOfReply(reply), depth, header + rest)
               == if n == 0 then Leaf(reply, |header|) else Open(reply.kind, n, |header|)
  {
    var n := |reply.elements|;
    var count := if reply.kind == Map then n / 2 else n;
    DecHasNoNewline(count);
    ParseIntOfDec(count);
    LeadingLine(Dec(count), rest);
  }

  // The grammar on a marker and what follows it.
  lemma ParseUnfolds(env: Env, depth: nat, ty: ItemType, v: seq<byte>)
    requires depth <= MAX_OPEN
    ensures ParseReply(env, depth, [MarkerOf(ty)] + v)
            == match ItemAt(env, ty, depth, v)
               case Wait => Short
               case Bad(fault) => Wrong(fault)
               case Leaf(reply, used) => Done(reply, v[used..])
               case Open(kind, count, used) =>
                 match ParseMany(env, depth + 1, count, v[used..])
                 case Short => Short
                 case Wrong(fault) => Wrong(fault)
                 case Done(elements, rest) => Done(Aggregate(kind, elements), rest)
  {
    hide ItemAt, MarkerOf, TypeOf, ParseMany;
    var u := [MarkerOf(ty)] + v;
    assert u[1..] == v;
    var item := ItemAt(env, ty, depth, v);
    if item.Leaf? || item.Open? {
      assert u[1 + item.used..] == v[item.used..];
    }
  }

  // Reading an encoded reply, whatever follows it, returns that reply and stops
  // right behind it; it is refused exactly when it nests too deeply.
  lemma {:induction false} RoundTrip(env: Env, depth: nat, reply: Reply, rest: seq<byte>)
    requires depth <= MAX_OPEN && Sendable(env, reply)
    ensures ParseReply(env, depth, Encode(reply) + rest)
            == if depth + Nesting(reply) <= MAX_OPEN then Done(reply, rest) else Wrong(TooDeep)
    decreases reply, 1
  {
    hide ItemAt, Payload, MarkerOf, ParseReply, Dec;
    var ty := TypeOfReply(reply);
    if !reply.Aggregate? {
      var v := Payload(reply) + rest;
      assert Encode(reply) + rest == [MarkerOf(ty)] + v;
      ParseUnfolds(env, depth, ty, v);
      LeafReads(env, depth, reply, rest);
      assert v[|Payload(reply)|..] == rest;
    } else {
      var n := |reply.elements|;
      var header := Dec(if reply.kind == Map then n / 2 else n) + CRLF;
      var body := EncodeMany(reply.elements) + rest;
      assert Encode(reply) + rest == [MarkerOf(ty)] + (header + body);
      ParseUnfolds(env, depth, ty, header + body);
      if depth == MAX_OPEN {
        TooDeepReads(env, reply.kind, header + body);
      } else {
        HeaderReads(env, depth, reply, body);
        RoundTripMany(env, depth + 1, reply.elements, rest);
      }
    }
  }

  lemma TooDeepReads(env: Env, kind: Kind, v: seq<byte>)
    ensures ItemAt(env, TAggregate(kind), MAX_OPEN, v) == Bad(TooDeep)
  {
  }

  lemma {:induction false} RoundTripMany(env: Env, depth: nat, replies: seq<Reply>, rest: seq<byte>)
    requires depth <= MAX_OPEN && SendableMany(env, replies)
    ensures ParseMany(env, depth, |replies|, EncodeMany(replies) + rest)
            == if depth + NestingMany(replies) <= MAX_OPEN then Done(replies, rest) else Wrong(TooDeep)
    decreases replies, 0
  {
    hide ParseReply, Sendable, Nesting;
    if replies == [] {
      assert EncodeMany(replies) + rest == rest;
    } else {
      var others := EncodeMany(replies[1..]) + rest;
      assert EncodeMany(replies) + rest == Encode(replies[0]) + others;
      RoundTrip(env, depth, replies[0], others);
      RoundTripMany(env, depth, replies[1..], rest);
      assert [replies[0]] + replies[1..] == replies;
    }
  }

  // A stream of encoded replies is read back one by one by the machine.
  lemma {:induction false} StreamRoundTrip(env: Env, replies: seq<Reply>)
    requires SendableMany(env, replies) && NestingMany(replies) <= MAX_OPEN
    ensures Run(env, INITIAL, EncodeMany(replies)) == Result(replies, Waiting(INITIAL, []))
    decreases |replies|
  {
    hide ParseReply, Sendable, Nesting, Encode;
    if replies != [] {
      var rest := EncodeMany(replies[1..]);
      RoundTrip(env, 0, replies[0], rest);
      MachineParses(env, [], EncodeMany(replies));
      StreamRoundTrip(env, replies[1..]);
      assert [replies[0]] + replies[1..] == replies;
    }
  }

  // With a strtod that takes nothing, a double whose text is a second comma and "inf" is still read.
  lemma SecondCommaIsRead()
    ensures var env, wire := Env(0, _ => false), [44, 44, 105, 110, 102, CR, LF];
            var line: seq<byte> := [44, 105, 110, 102];
            ParseReply(env, 0, wire) == Done(Double(line), []) && !IsNumber(env, line)
  {
    var env, wire: seq<byte> := Env(0, _ => false), [44, 44, 105, 110, 102, CR, LF];
    var line: seq<byte> := [44, 105, 110, 102];
    assert wire[1..] == line + CRLF + [];
    assert NoNewline(line);
    LineEnds(line, []);
    LeadingLine(line, []);
    CStringOfWhole(line);
    ParseUnfolds(env, 0, TDouble, wire[1..]);
    assert wire == [MarkerOf(TDouble)] + wire[1..];
  }

  lemma {:induction false} CStringOfWhole(s: seq<byte>)
    requires NUL !in s
    ensures CString(s) == s
  {
    if s != [] {
      CStringOfWhole(s[1..]);
    }
  }
}
