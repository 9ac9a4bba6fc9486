/** The protocol as a recursive grammar, and the reader's task stack as a pure machine. */
module Resp {
  import opened Bytes
  import opened Decimal

  datatype Kind = Array | Map | Set

  // A complete reply, as a tree.
  datatype Reply =
    | Status(text: seq<byte>)
    | Error(text: seq<byte>)
    | Str(text: seq<byte>)
    | Integer(n: int)
    | Double(text: seq<byte>)
    | Nil
    | Bool(b: bool)
    | Aggregate(kind: Kind, elements: seq<Reply>)

  datatype ItemType = TStatus | TError | TString | TInteger | TDouble | TNil | TBool | TAggregate(kind: Kind)

  // The protocol errors, and running out of memory for an element array.
  datatype Fault =
    | BadType(b: byte) | BadInteger | LongDouble | BadDouble
    | BadBulkLength | BulkRange | BadCount | CountRange | TooDeep | OutOfMemory

  // The reader keeps the count of an aggregate in an int.
  type Count = n: nat | n <= INT_MAX

  // What the reader relies on: the largest element array the allocator grants, which must be one
  // whose count fits an int, and strtod's verdict "all of it is a number" on a text without NULs.
  datatype Env = Env(limit: Count, isDouble: seq<byte> -> bool)

  // The task stack holds nine tasks, so at most eight aggregates are open.
  const MAX_OPEN: nat := 8
  const DOUBLE_BUFFER: nat := 326

  function TypeOf(b: byte): Option<ItemType> {
    match b
    case 45 => Some(TError)              // -
    case 43 => Some(TStatus)             // +
    case 58 => Some(TInteger)            // :
    case 44 => Some(TDouble)             // ,
    case 95 => Some(TNil)                // _
    case 36 => Some(TString)             // $
    case 42 => Some(TAggregate(Array))   // *
    case 37 => Some(TAggregate(Map))     // %
    case 126 => Some(TAggregate(Set))    // ~
    case 35 => Some(TBool)               // #
    case _ => None
  }

  function MarkerOf(ty: ItemType): (b: byte)
    ensures TypeOf(b) == Some(ty)
  {
    match ty
    case TError => 45
    case TStatus => 43
    case TInteger => 58
    case TDouble => 44
    case TNil => 95
    case TString => 36
    case TBool => 35
    case TAggregate(Array) => 42
    case TAggregate(Map) => 37
    case TAggregate(Set) => 126
  }

  // --- lines ---

  predicate NewlineAt(s: seq<byte>, i: int) {
    0 <= i && i + 1 < |s| && s[i] == CR && s[i + 1] == LF
  }

  // Index of the first CRLF at or after from.
  function Newline(s: seq<byte>, from: nat := 0): (r: Option<nat>)
    ensures r.Some? ==> from <= r.value && NewlineAt(s, r.value)
    ensures r.Some? ==> forall j :: from <= j < r.value ==> !NewlineAt(s, j)
    ensures r.None? ==> forall j :: from <= j ==> !NewlineAt(s, j)
    decreases |s| - from
  {
    if from + 1 >= |s| then None
    else if NewlineAt(s, from) then Some(from)
    else Newline(s, from + 1)
  }

  // --- one item: what follows a type byte ---

  datatype Item =
    | Leaf(reply: Reply, used: nat)
    | Open(kind: Kind, count: nat, used: nat)
    | Wait
    | Bad(fault: Fault)

  // The text a C string function sees: up to the first NUL.
  function CString(s: seq<byte>): seq<byte> {
    if s == [] || s[0] == NUL then [] else [s[0]] + CString(s[1..])
  }

  function Lower(b: byte): byte {
    if 65 <= b <= 90 then b + 32 else b
  }

  predicate EqualNoCase(s: seq<byte>, lower: seq<byte>) {
    |s| == |lower| && forall i :: 0 <= i < |s| ==> Lower(s[i]) == lower[i]
  }

  const COMMA_INF: seq<byte> := [44, 105, 110, 102]
  const COMMA_MINUS_INF: seq<byte> := [44, 45, 105, 110, 102]

  predicate IsDouble(env: Env, line: seq<byte>) {
    var text := CString(line);
    EqualNoCase(text, COMMA_INF) || EqualNoCase(text, COMMA_MINUS_INF) || (text != [] && env.isDouble(text))
  }

  // What the test is meant to accept: what strtod takes for a number.
  predicate IsNumber(env: Env, line: seq<byte>) {
    CString(line) != [] && env.isDouble(CString(line))
  }

  predicate SpellsCommaInf(text: seq<byte>) {
    EqualNoCase(text, COMMA_INF) || EqualNoCase(text, COMMA_MINUS_INF)
  }

  // It accepts just that, except for the two texts of the infinity test, which start with a second
  // comma: they are accepted whether or not strtod takes them.
  lemma DoubleTestIsRight(env: Env, line: seq<byte>)
    ensures (IsDouble(env, line) <==> IsNumber(env, line))
            <==> !SpellsCommaInf(CString(line)) || env.isDouble(CString(line))
  {
    if SpellsCommaInf(CString(line)) {
      assert CString(line) != [];
    }
  }

  predicate Truthy(line: seq<byte>) {
    |line| > 0 && (line[0] == 116 || line[0] == 84)
  }

  ghost function LineItem(env: Env, ty: ItemType, line: seq<byte>): Item
    requires !ty.TString? && !ty.TAggregate?
  {
    var used := |line| + 2;
    match ty
    case TInteger => (match ParseInt(line) case None => Bad(BadInteger) case Some(n) => Leaf(Integer(n), used))
    case TDouble =>
      if |line| >= DOUBLE_BUFFER then Bad(LongDouble)
      else if IsDouble(env, line) then Leaf(Double(line), used)
      else Bad(BadDouble)
    case TNil => Leaf(Nil, used)
    case TBool => Leaf(Bool(Truthy(line)), used)
    case TError => Leaf(Error(line), used)
    case TStatus => Leaf(Status(line), used)
  }

  ghost function BulkItem(line: seq<byte>, u: seq<byte>): Item
    requires |line| + 2 <= |u|
  {
    match ParseInt(line)
    case None => Bad(BadBulkLength)
    case Some(len) =>
      var at := |line| + 2;
      if len < -1 then Bad(BulkRange)
      else if len == -1 then Leaf(Nil, at)
      else if at + len + 2 <= |u| then Leaf(Str(u[at..at + len]), at + len + 2)
      else Wait
  }

  ghost function AggregateItem(env: Env, kind: Kind, line: seq<byte>): Item {
    match ParseInt(line)
    case None => Bad(BadCount)
    case Some(n) =>
      var count := if kind == Map then 2 * n else n;
      if n < -1 then Bad(CountRange)
      else if n == -1 then Leaf(Nil, |line| + 2)
      else if count > env.limit then Bad(OutOfMemory)
      else if count == 0 then Leaf(Aggregate(kind, []), |line| + 2)
      else Open(kind, count, |line| + 2)
  }

  ghost function ItemAt(env: Env, ty: ItemType, depth: nat, u: seq<byte>): (i: Item)
    ensures i.Leaf? || i.Open? ==> 2 <= i.used <= |u|
    ensures i.Open? ==> depth != MAX_OPEN && 0 < i.count <= env.limit
  {
    if ty.TAggregate? && depth == MAX_OPEN then Bad(TooDeep)
    else
      match Newline(u)
      case None => Wait
      case Some(i) =>
        if ty.TAggregate? then AggregateItem(env, ty.kind, u[..i])
        else if ty.TString? then BulkItem(u[..i], u)
        else LineItem(env, ty, u[..i])
  }

  // --- the grammar ---

  datatype Parse<T> = Done(value: T, rest: seq<byte>) | Short | Wrong(fault: Fault)

  ghost function ParseReply(env: Env, depth: nat, u: seq<byte>): (p: Parse<Reply>)
    requires depth <= MAX_OPEN
    ensures p.Done? ==> |p.rest| < |u|
    decreases |u|, 0
  {
    if u == [] then Short
    else
      match TypeOf(u[0])
      case None => Wrong(BadType(u[0]))
      case Some(ty) =>
        match ItemAt(env, ty, depth, u[1..])
        case Wait => Short
        case Bad(fault) => Wrong(fault)
        case Leaf(reply, used) => Done(reply, u[1 + used..])
        case Open(kind, count, used) =>
          match ParseMany(env, depth + 1, count, u[1 + used..])
          case Short => Short
          case Wrong(fault) => Wrong(fault)
          case Done(elements, rest) => Done(Aggregate(kind, elements), rest)
  }

  ghost function ParseMany(env: Env, depth: nat, count: nat, u: seq<byte>): (p: Parse<seq<Reply>>)
    requires depth <= MAX_OPEN
    ensures p.Done? ==> |p.rest| <= |u| && |p.value| == count
    decreases |u|, 1
  {
    if count == 0 then Done([], u)
    else
      match ParseReply(env, depth, u)
      case Short => Short
      case Wrong(fault) => Wrong(fault)
      case Done(first, rest) =>
        match ParseMany(env, depth, count - 1, rest)
        case Short => Short
        case Wrong(fault) => Wrong(fault)
        case Done(others, rest') => Done([first] + others, rest')
  }

  // --- the machine ---

  // An aggregate under construction.
  datatype Frame = Frame(kind: Kind, count: nat, done: seq<Reply>)

  // The open aggregates, and the type byte already taken for the next item.
  datatype State = State(stack: seq<Frame>, pending: Option<ItemType>)

  const INITIAL := State([], None)

  ghost predicate GoodState(st: State) {
    && |st.stack| <= MAX_OPEN
    && (st.pending.Some? && st.pending.value.TAggregate? ==> |st.stack| < MAX_OPEN)
    && forall i :: 0 <= i < |st.stack| ==> |st.stack[i].done| < st.stack[i].count
  }

  // Hand a finished reply to the innermost open aggregate; aggregates that become
  // full are handed on, and a reply nobody waits for is the result.
  function Deliver(stack: seq<Frame>, reply: Reply): (r: (seq<Frame>, Option<Reply>))
    ensures |r.0| <= |stack|
    ensures r.1.Some? ==> r.0 == []
    ensures r.1.None? ==> |r.0| > 0
    decreases |stack|
  {
    if stack == [] then ([], Some(reply))
    else
      var top := stack[|stack| - 1];
      var below := stack[..|stack| - 1];
      var done := top.done + [reply];
      if |done| == top.count then Deliver(below, Aggregate(top.kind, done))
      else (below + [top.(done := done)], None)
  }

  lemma {:induction false} DeliverGood(stack: seq<Frame>, reply: Reply)
    requires GoodState(State(stack, None))
    ensures GoodState(State(Deliver(stack, reply).0, None))
    decreases |stack|
  {
    if stack != [] {
      var top := stack[|stack| - 1];
      if |top.done| + 1 == top.count {
        DeliverGood(stack[..|stack| - 1], Aggregate(top.kind, top.done + [reply]));
      }
    }
  }

  datatype Outcome =
    | Moved(st: State, used: nat, out: Option<Reply>)
    | Stuck(st: State, used: nat)
    | Broken(fault: Fault)

  // Process the item after a type byte.
  ghost function TypedStep(env: Env, stack: seq<Frame>, ty: ItemType, u: seq<byte>): (o: Outcome)
    ensures o.Moved? ==> 2 <= o.used <= |u|
    ensures o.Stuck? ==> o.used == 0
  {
    match ItemAt(env, ty, |stack|, u)
    case Wait => Stuck(State(stack, Some(ty)), 0)
    case Bad(fault) => Broken(fault)
    case Leaf(reply, used) =>
      var (stack', out) := Deliver(stack, reply);
      Moved(State(stack', None), used, out)
    case Open(kind, count, used) => Moved(State(stack + [Frame(kind, count, [])], None), used, None)
  }

  ghost function Shift(o: Outcome, n: nat): (r: Outcome) {
    match o
    case Moved(st, used, out) => Moved(st, used + n, out)
    case Stuck(st, used) => Stuck(st, used + n)
    case Broken(_) => o
  }

  // One pass of processItem.
  ghost function Step(env: Env, st: State, u: seq<byte>): (o: Outcome)
    ensures o.Moved? ==> 0 < o.used <= |u|
    ensures o.Stuck? ==> o.used <= |u|
  {
    if st.pending.Some? then TypedStep(env, st.stack, st.pending.value, u)
    else if u == [] then Stuck(st, 0)
    else
      match TypeOf(u[0])
      case None => Broken(BadType(u[0]))
      case Some(ty) => Shift(TypedStep(env, st.stack, ty, u[1..]), 1)
  }

  lemma StepGood(env: Env, st: State, u: seq<byte>)
    requires GoodState(st)
    ensures var o := Step(env, st, u);
            (o.Moved? || o.Stuck? ==> GoodState(o.st)) && (o.Moved? && o.out.Some? ==> o.st == INITIAL)
  {
    forall reply: Reply
      ensures GoodState(State(Deliver(st.stack, reply).0, None))
    {
      DeliverGood(st.stack, reply);
    }
  }

  datatype End = Waiting(st: State, rest: seq<byte>) | Failed(fault: Fault)
  datatype Result = Result(replies: seq<Reply>, end: End)

  function Prepend(out: Option<Reply>, r: Result): (r': Result) {
    if out.Some? then Result([out.value] + r.replies, r.end) else r
  }

  // Process as much of u as possible.
  ghost function Run(env: Env, st: State, u: seq<byte>): (r: Result)
    decreases |u|
  {
    match Step(env, st, u)
    case Moved(st', used, out) => Prepend(out, Run(env, st', u[used..]))
    case Stuck(st', used) => Result([], Waiting(st', u[used..]))
    case Broken(fault) => Result([], Failed(fault))
  }
}
