/** The resumable reader: buffer, cursor, nine-slot task stack and the tree of reply
    objects it builds in place. */
module Reader {
  import opened Bytes
  import opened Decimal
  import opened Resp
  import opened RespTheorems

  // --- reply objects ---

  class ReplyObject {
    var ty: ItemType
    var integer: int
    var str: seq<byte>
    var element: seq<ReplyObject?>

    constructor (ty: ItemType, integer: int, str: seq<byte>, elements: nat)
      ensures this.ty == ty && this.integer == integer && this.str == str
      ensures |element| == elements && forall i :: 0 <= i < elements ==> element[i] == null
    {
      this.ty, this.integer, this.str := ty, integer, str;
      element := seq(elements, _ => null);
    }
  }

  // The finished objects and the tree each one is the root of.
  type Forest = map<ReplyObject, Reply>

  ghost predicate Shows(o: ReplyObject, t: Reply, forest: Forest)
    reads o
  {
    o.ty == TypeOfReply(t) &&
    match t
    case Integer(n) => o.integer == n
    case Bool(b) => o.integer == if b then 1 else 0
    case Nil => true
    case Aggregate(_, elements) =>
      && |o.element| == |elements|
      && forall i :: 0 <= i < |elements| ==>
           o.element[i] != null && o.element[i] in forest && forest[o.element[i]] == elements[i]
    case _ => o.str == t.text
  }

  ghost predicate Consistent(forest: Forest)
    reads forest.Keys
  {
    forall o | o in forest :: Shows(o, forest[o], forest)
  }

  // The heap alone determines the tree under an object.
  lemma {:induction false} TreeIsUnique(o: ReplyObject, f: Forest, g: Forest)
    requires Consistent(f) && Consistent(g) && o in f && o in g
    ensures f[o] == g[o]
    decreases f[o]
  {
    assert Shows(o, f[o], f) && Shows(o, g[o], g);
    if f[o].Aggregate? {
      forall i | 0 <= i < |f[o].elements|
        ensures f[o].elements[i] == g[o].elements[i]
      {
        TreeIsUnique(o.element[i], f, g);
      }
    }
  }

  // --- the reader ---

  // One slot of the task stack; parent is the slot below, absent for the root.
  datatype Task = Task(ty: Option<ItemType>, elements: CInt, idx: CInt, obj: ReplyObject?, parent: Option<nat>)

  const COMPACT_AT: nat := 1024

  class Reader {
    const env: Env
    var err: Option<Fault>
    var buf: seq<byte>
    var pos: nat
    const rstack: array<Task>
    var ridx: int
    var reply: ReplyObject?

    ghost var forest: Forest
    ghost var frames: seq<Frame>
    ghost var objs: set<ReplyObject>

    // Slot i holds the open aggregate of frames[i], whose next element is built by slot i + 1.
    ghost predicate OpenAt(i: nat)
      requires i < |frames| && i + 1 < rstack.Length
      reads this`frames, this`forest, this`objs, rstack, objs
    {
      var task, child, frame := rstack[i], rstack[i + 1], frames[i];
      && task.ty == Some(TAggregate(frame.kind)) && task.elements == frame.count
      && child.parent == Some(i) && child.idx == |frame.done| < frame.count
      && task.obj != null && task.obj in objs && task.obj !in forest
      && task.obj.ty == TAggregate(frame.kind) && |task.obj.element| == frame.count
      && (forall j :: 0 <= j < |frame.done| ==>
            var e := task.obj.element[j]; e != null && e in forest && forest[e] == frame.done[j])
      && (i + 1 < |frames| ==> task.obj.element[|frame.done|] == child.obj)
    }

    // The open aggregates below slot n, all different, hang together.
    ghost predicate Levels(n: int)
      reads this`frames, this`forest, this`objs, rstack, objs
    {
      && rstack.Length == MAX_OPEN + 1 && 0 <= n <= MAX_OPEN && |frames| == n
      && (forall i :: 0 <= i < n ==> OpenAt(i))
      && (forall i, j :: 0 <= i < j < n ==> rstack[i].obj != rstack[j].obj)
      && rstack[0].parent == None
    }

    // The object is stored where the task in slot n belongs.
    ghost predicate InPlace(n: int, obj: ReplyObject)
      reads this`frames, this`forest, this`objs, rstack, objs
    {
      Levels(n) && (n > 0 ==> OpenAt(n - 1) && rstack[n - 1].obj.element[rstack[n].idx] == obj)
    }

    ghost predicate Core()
      reads this, rstack, objs
    {
      && forest.Keys <= objs
      && rstack.Length == MAX_OPEN + 1
      && pos <= |buf| && -1 <= ridx <= MAX_OPEN
      && Consistent(forest)
      && (err.Some? ==> ridx == -1 && buf == [] && reply == null)
      && |frames| == (if ridx < 0 then 0 else ridx)
      && (ridx >= 0 ==> Levels(ridx) && (ridx > 0 ==> reply == rstack[0].obj))
    }

    // No aggregate is pending for the last slot: its type byte is refused at once.
    ghost predicate PendingFits()
      requires rstack.Length == MAX_OPEN + 1 && -1 <= ridx <= MAX_OPEN
      reads this`ridx, rstack
    {
      ridx == MAX_OPEN && rstack[ridx].ty.Some? ==> !rstack[ridx].ty.value.TAggregate?
    }

    // Between calls no finished reply is left behind.
    ghost predicate Valid()
      reads this, rstack, objs
    {
      Core() && PendingFits() && (ridx == -1 ==> reply == null)
    }

    // The state of the machine of module Resp, and the bytes it has not consumed.
    ghost function Abs(): (st: State)
      requires rstack.Length == MAX_OPEN + 1 && -1 <= ridx <= MAX_OPEN
      reads this, rstack
    {
      State(frames, if ridx < 0 then None else rstack[ridx].ty)
    }

    ghost function Unread(): (u: seq<byte>)
      requires pos <= |buf|
      reads this
    {
      buf[pos..]
    }

    lemma CursorInside()
      requires Valid()
      ensures pos <= |buf|
    {
    }

    lemma AbsGood()
      requires Core() && PendingFits()
      ensures GoodState(Abs())
    {
      forall i | 0 <= i < |frames|
        ensures |frames[i].done| < frames[i].count
      {
        assert OpenAt(i);
      }
    }

    constructor (env: Env)
      ensures Valid() && fresh(rstack) && fresh(objs) && this.env == env
      ensures err == None && Abs() == INITIAL && Unread() == []
    {
      this.env := env;
      err, buf, pos, ridx, reply := None, [], 0, -1, null;
      rstack := new Task[MAX_OPEN + 1];
      forest, frames := map[], [];
      objs := {};
    }

    // Drop the partial reply and all unread bytes u; the reader refuses further use.
    method SetError(fault: Fault, ghost u: seq<byte>)
      requires rstack.Length == MAX_OPEN + 1
      modifies this
      ensures objs == {} && Valid() && err == Some(fault) && Did(Broken(fault), u, false)
    {
      reply := null;
      buf, pos, ridx, err := [], 0, -1, Some(fault);
      frames, forest, objs := [], map[], {};
    }

    method ReadByte() returns (b: Option<byte>)
      requires pos <= |buf|
      modifies this`pos
      ensures pos <= |buf|
      ensures b.None? ==> old(Unread()) == [] && pos == old(pos)
      ensures b.Some? ==> old(Unread()) == [b.value] + Unread()
    {
      if |buf| - pos >= 1 {
        b := Some(buf[pos]);
        pos := pos + 1;
      } else {
        b := None;
      }
    }

    method ReadLine() returns (line: Option<seq<byte>>)
      requires pos <= |buf|
      modifies this`pos
      ensures pos <= |buf|
      ensures var u := old(Unread()); match Newline(u)
              case None => line == None && pos == old(pos)
              case Some(i) => line == Some(u[..i]) && Unread() == u[i + 2..]
    {
      var u := buf[pos..];
      var s := SeekNewline(u);
      if s.Some? {
        line := Some(u[..s.value]);
        pos := pos + s.value + 2;
      } else {
        line := None;
      }
    }

    // Create a reply object and store it in the element the current task stands for.
    method CreateObject(ty: ItemType, integer: int, str: seq<byte>, elements: nat) returns (r: ReplyObject)
      requires Core() && ridx >= 0
      modifies this`objs, objs
      ensures Core() && objs == old(objs) + {r} && fresh(r)
      ensures r !in forest && r.ty == ty && r.integer == integer && r.str == str
      ensures |r.element| == elements && forall i :: 0 <= i < elements ==> r.element[i] == null
      ensures InPlace(ridx, r) && forall i :: 0 <= i < ridx ==> rstack[i].obj != r
    {
      if ridx > 0 {
        assert OpenAt(ridx - 1);
      }
      r := new ReplyObject(ty, integer, str, elements);
      objs := objs + {r};
      var task := rstack[ridx];
      if task.parent.Some? {
        var parent := rstack[task.parent.value].obj;
        parent.element := parent.element[task.idx := r];
      }
      forall i | 0 <= i < ridx
        ensures OpenAt(i)
      {
        assert old(OpenAt(i));
      }
    }

    // Enter a finished object into the forest.
    ghost method Register(n: int, obj: ReplyObject, t: Reply)
      requires forest.Keys <= objs && Consistent(forest)
      requires obj in objs && obj !in forest && Shows(obj, t, forest)
      requires InPlace(n, obj) && forall i :: 0 <= i < n ==> rstack[i].obj != obj
      modifies this`forest
      ensures forest == old(forest)[obj := t] && Consistent(forest)
      ensures InPlace(n, obj)
    {
      forest := forest[obj := t];
      forall o | o in forest
        ensures Shows(o, forest[o], forest)
      {
        if o != obj {
          assert old(Shows(o, forest[o], forest));
        }
      }
      forall i | 0 <= i < n
        ensures OpenAt(i)
      {
        assert old(OpenAt(i));
      }
    }

    // The innermost aggregate received its last element: it is finished itself.
    method CloseTop(ghost last: ReplyObject, ghost t: Reply) returns (ghost obj: ReplyObject, ghost tree: Reply)
      requires forest.Keys <= objs && Consistent(forest)
      requires ridx > 0 && InPlace(ridx, last) && last in forest && forest[last] == t
      requires |frames[ridx - 1].done| + 1 == frames[ridx - 1].count
      modifies this`forest, this`frames, this`ridx
      ensures ridx == old(ridx) - 1 && frames == old(frames)[..ridx]
      ensures var frame := old(frames)[ridx]; tree == Aggregate(frame.kind, frame.done + [t])
      ensures obj == rstack[ridx].obj && obj in objs
      ensures forest == old(forest)[obj := tree] && Consistent(forest)
      ensures InPlace(ridx, obj)
    {
      assert OpenAt(ridx - 1) && (ridx > 1 ==> OpenAt(ridx - 2));
      ghost var frame := frames[ridx - 1];
      ridx := ridx - 1;
      obj, tree := rstack[ridx].obj, Aggregate(frame.kind, frame.done + [t]);
      frames := frames[..ridx];
      forall i | 0 <= i < ridx
        ensures OpenAt(i)
      {
        assert old(OpenAt(i));
      }
      Register(ridx, obj, tree);
    }

    lemma TopFacts(obj: ReplyObject)
      requires InPlace(ridx, obj)
      ensures 0 <= ridx <= MAX_OPEN && |frames| == ridx && rstack.Length == MAX_OPEN + 1
      ensures ridx > 0 ==> var frame := frames[ridx - 1];
                           rstack[ridx].idx == |frame.done| < frame.count == rstack[ridx - 1].elements
    {
    }

    // The object stands in its place and shows the tree t: register it, and move on.
    // Aggregates that are now full are finished, bottom up.
    method MoveToNextTask(ghost obj: ReplyObject, ghost t: Reply)
      requires Core() && ridx >= 0 && obj in objs && err.None?
      requires forall i :: 0 <= i < ridx ==> rstack[i].obj != obj
      requires Shows(obj, t, forest) && obj !in forest && InPlace(ridx, obj)
      requires ridx == 0 ==> reply == obj
      modifies this`ridx, this`forest, this`frames, rstack
      ensures Finished(Deliver(old(frames), t))
    {
      hide Consistent, Deliver, InPlace, Levels, Shows;
      ghost var root, tree := obj, t;
      Register(ridx, obj, t);
      while ridx >= 0
        invariant Consistent(forest) && forest.Keys <= objs && root in forest && forest[root] == tree
        invariant InPlace(ridx, root) && 0 <= ridx <= MAX_OPEN
        invariant Deliver(frames, tree) == Deliver(old(frames), t)
        invariant ridx > 0 ==> reply == rstack[0].obj
        invariant ridx == 0 ==> root == reply
        decreases ridx
      {
        DeliverUnfolds(frames, tree);
        TopFacts(root);
        if ridx == 0 {
          ridx := ridx - 1;
          return;
        }
        var cur, prv := rstack[ridx], rstack[ridx - 1];
        if cur.idx == prv.elements - 1 {
          root, tree := CloseTop(root, tree);
        } else {
          NextElement(root, tree);
          return;
        }
      }
    }

    // The innermost aggregate waits for one more element: reset the task for it.
    method NextElement(ghost last: ReplyObject, ghost t: Reply)
      requires forest.Keys <= objs && Consistent(forest)
      requires pos <= |buf| && err.None?
      requires ridx > 0 && InPlace(ridx, last) && last in forest && forest[last] == t
      requires |frames[ridx - 1].done| + 1 < frames[ridx - 1].count
      requires reply == rstack[0].obj
      modifies this`frames, rstack
      ensures var top := old(frames)[ridx - 1];
              frames == old(frames)[..ridx - 1] + [top.(done := top.done + [t])]
      ensures Core() && rstack[ridx].ty == None
    {
      var cur := rstack[ridx];
      ghost var top := frames[ridx - 1];
      assert OpenAt(ridx - 1);
      rstack[ridx] := cur.(ty := None, elements := -1, idx := cur.idx + 1);
      frames := frames[..ridx - 1] + [top.(done := top.done + [t])];
      forall i | 0 <= i < ridx
        ensures OpenAt(i)
      {
        assert old(OpenAt(i));
      }
    }

    // A finished reply was handed to the open aggregates, with this outcome.
    ghost predicate Finished(outcome: (seq<Frame>, Option<Reply>))
      reads this, rstack, objs
    {
      var (stack, out) := outcome;
      && Core() && frames == stack
      && (out.None? ==> ridx >= 0 && rstack[ridx].ty == None)
      && (out.Some? ==> ridx == -1 && reply != null && reply in forest && forest[reply] == out.value)
    }

    // The effect of one pass over unread bytes u, as the machine of module Resp has it.
    ghost predicate Did(o: Outcome, u: seq<byte>, ok: bool)
      reads this, rstack, objs
    {
      && Core() && PendingFits()
      && match o
         case Moved(st, used, out) =>
           && ok && err.None? && used <= |u| && Unread() == u[used..] && Abs() == st
           && (if out.Some? then ridx == -1 && reply != null && reply in forest && forest[reply] == out.value
               else ridx >= 0)
         case Stuck(st, used) =>
           !ok && err.None? && used <= |u| && Unread() == u[used..] && Abs() == st && ridx >= 0
         case Broken(fault) => !ok && err == Some(fault) && Valid()
    }

    lemma DidNothing(u: seq<byte>, ty: ItemType)
      requires Core() && PendingFits() && err.None? && ridx >= 0 && Unread() == u && rstack[ridx].ty == Some(ty)
      ensures Did(Stuck(State(frames, Some(ty)), 0), u, false)
    {
    }

    // A leaf was read, from the first used bytes of u: build its object and move on.
    method FinishLeaf(ty: ItemType, integer: int, str: seq<byte>, ghost t: Reply, ghost u: seq<byte>, ghost used: nat)
      requires Core() && ridx >= 0 && err.None? && used <= |u| && Unread() == u[used..]
      requires ty == TypeOfReply(t)
      requires match t
               case Integer(n) => integer == n
               case Bool(b) => integer == if b then 1 else 0
               case Nil => true
               case Aggregate(_, elements) => elements == []
               case _ => str == t.text
      modifies this`ridx, this`reply, this`forest, this`frames, this`objs, rstack, objs
      ensures fresh(objs - old(objs))
      ensures Did(LeafOutcome(old(frames), t, used), u, true)
    {
      hide InPlace, Levels, Consistent, Deliver;
      var obj := CreateObject(ty, integer, str, 0);
      if ridx == 0 {
        reply := obj;
      }
      MoveToNextTask(obj, t);
    }

    method ProcessLineItem() returns (ok: bool)
      requires Core() && ridx >= 0 && err.None?
      requires rstack[ridx].ty.Some? && var ty := rstack[ridx].ty.value; !ty.TString? && !ty.TAggregate?
      modifies this, rstack, objs
      ensures fresh(objs - old(objs))
      ensures Did(old(TypedStep(env, frames, rstack[ridx].ty.value, Unread())), old(Unread()), ok)
    {
      hide ParseInt, IsDouble, Deliver, Newline, Levels, Consistent, Truthy, Did, Finished;
      var ty := rstack[ridx].ty.value;
      ghost var u := Unread();
      var p := ReadLine();
      if p.None? {
        DidNothing(u, ty);
        return false;
      }
      var line := p.value;
      ghost var used := |line| + 2;
      match ty {
        case TInteger =>
          var v := String2ll(line);
          if v.None? {
            SetError(BadInteger, u);
            return false;
          }
          FinishLeaf(ty, v.value, [], Integer(v.value), u, used);
        case TDouble =>
          if |line| >= DOUBLE_BUFFER {
            SetError(LongDouble, u);
            return false;
          }
          if !IsDouble(env, line) {
            SetError(BadDouble, u);
            return false;
          }
          FinishLeaf(ty, 0, line, Double(line), u, used);
        case TNil =>
          FinishLeaf(ty, 0, [], Nil, u, used);
        case TBool =>
          var b := Truthy(line);
          FinishLeaf(ty, if b then 1 else 0, [], Bool(b), u, used);
        case TError =>
          FinishLeaf(ty, 0, line, Error(line), u, used);
        case TStatus =>
          FinishLeaf(ty, 0, line, Status(line), u, used);
      }
      ok := true;
    }

    method ProcessBulkItem() returns (ok: bool)
      requires Core() && ridx >= 0 && err.None? && rstack[ridx].ty == Some(TString)
      modifies this, rstack, objs
      ensures fresh(objs - old(objs))
      ensures Did(old(TypedStep(env, frames, TString, Unread())), old(Unread()), ok)
    {
      hide ParseInt, Deliver, Newline, Levels, Consistent, Did, Finished;
      var u := buf[pos..];
      var s := SeekNewline(u);
      if s.None? {
        DidNothing(u, TString);
        return false;
      }
      var len := String2ll(u[..s.value]);
      if len.None? {
        SetError(BadBulkLength, u);
        return false;
      }
      if len.value < -1 {
        SetError(BulkRange, u);
        return false;
      }
      ok := TakeBulk(u, s.value, len.value);
    }

    // A length of at least -1 was read from the line of s bytes; take the nil or the string, if complete.
    method TakeBulk(u: seq<byte>, s: nat, len: int) returns (ok: bool)
      requires Core() && ridx >= 0 && err.None? && rstack[ridx].ty == Some(TString)
      requires Unread() == u && Newline(u) == Some(s) && ParseInt(u[..s]) == Some(len) && len >= -1
      modifies this, rstack, objs
      ensures fresh(objs - old(objs))
      ensures Did(TypedStep(env, old(frames), TString, u), u, ok)
    {
      hide ParseInt, Deliver, Newline, Levels, Consistent, Did, Finished;
      var byteLen := s + 2;
      if len == -1 {
        pos := pos + byteLen;
        assert u[byteLen..] == buf[pos..];
        FinishLeaf(TNil, 0, [], Nil, u, byteLen);
        return true;
      }
      byteLen := byteLen + len + 2;
      if pos + byteLen <= |buf| {
        var str := u[s + 2..s + 2 + len];
        pos := pos + byteLen;
        assert u[byteLen..] == buf[pos..];
        FinishLeaf(TString, 0, str, Str(str), u, byteLen);
        return true;
      }
      DidNothing(u, TString);
      ok := false;
    }

    method ProcessAggregateItem() returns (ok: bool)
      requires Core() && ridx >= 0 && err.None?
      requires rstack[ridx].ty.Some? && rstack[ridx].ty.value.TAggregate?
      modifies this, rstack, objs
      ensures fresh(objs - old(objs))
      ensures Did(old(TypedStep(env, frames, rstack[ridx].ty.value, Unread())), old(Unread()), ok)
    {
      hide ParseInt, Deliver, Newline, Levels, Consistent, Did, Finished;
      var ty := rstack[ridx].ty.value;
      ghost var u := Unread();
      if ridx == MAX_OPEN {
        SetError(TooDeep, u);
        return false;
      }
      var p := ReadLine();
      if p.None? {
        DidNothing(u, ty);
        return false;
      }
      ghost var used := |p.value| + 2;
      var n := String2ll(p.value);
      if n.None? {
        SetError(BadCount, u);
        return false;
      }
      if n.value < -1 {
        SetError(CountRange, u);
        return false;
      }
      if n.value == -1 {
        FinishLeaf(TNil, 0, [], Nil, u, used);
        return true;
      }
      var elements := if ty.kind == Map then n.value * 2 else n.value;
      if elements > env.limit {
        SetError(OutOfMemory, u);
        return false;
      }
      if elements > 0 {
        OpenAggregate(ty.kind, elements, u, used);
      } else {
        FinishLeaf(ty, 0, [], Aggregate(ty.kind, []), u, used);
      }
      ok := true;
    }

    // Build the empty aggregate and push a task for its first element.
    method OpenAggregate(kind: Kind, elements: nat, ghost u: seq<byte>, ghost used: nat)
      requires elements <= env.limit
      requires Core() && 0 <= ridx < MAX_OPEN && err.None? && elements > 0
      requires used <= |u| && Unread() == u[used..]
      requires rstack[ridx].ty == Some(TAggregate(kind))
      modifies this`ridx, this`reply, this`forest, this`frames, this`objs, rstack, objs
      ensures fresh(objs - old(objs))
      ensures Did(Moved(State(old(frames) + [Frame(kind, elements, [])], None), used, None), u, true)
    {
      hide Consistent, Shows;
      var obj := CreateObject(TAggregate(kind), 0, [], elements);
      if ridx == 0 {
        reply := obj;
      }
      PushTask(kind, elements, obj);
    }

    // The count is narrowed to the int field of the task.
    method PushTask(kind: Kind, elements: nat, obj: ReplyObject)
      requires elements <= env.limit
      requires Core() && 0 <= ridx < MAX_OPEN && err.None? && InPlace(ridx, obj) && elements > 0
      requires obj in objs && obj !in forest && obj.ty == TAggregate(kind) && |obj.element| == elements
      requires forall i :: 0 <= i < ridx ==> rstack[i].obj != obj
      requires rstack[ridx].ty == Some(TAggregate(kind)) && (ridx == 0 ==> reply == obj)
      modifies this`ridx, this`frames, rstack
      ensures Core() && ridx == old(ridx) + 1
      ensures Abs() == State(old(frames) + [Frame(kind, elements, [])], None)
    {
      hide Consistent, Shows;
      rstack[ridx] := rstack[ridx].(elements := ToCInt(elements), obj := obj);
      ridx := ridx + 1;
      rstack[ridx] := Task(None, -1, 0, null, Some(ridx - 1));
      frames := frames + [Frame(kind, elements, [])];
      assert OpenAt(ridx - 1);
      forall i | 0 <= i < ridx - 1
        ensures OpenAt(i)
      {
        assert old(OpenAt(i));
      }
    }

    // Note the type of the current item; the open aggregates below do not look at it.
    method SetType(ty: ItemType)
      requires Core() && ridx >= 0
      modifies rstack
      ensures Core() && rstack[ridx].ty == Some(ty)
    {
      rstack[ridx] := rstack[ridx].(ty := Some(ty));
      forall i | 0 <= i < ridx
        ensures OpenAt(i)
      {
        assert old(OpenAt(i));
      }
    }

    // The type byte, unless an earlier pass has read it. Not ok: there is none, or it is unknown.
    method ReadType() returns (ok: bool)
      requires Core() && ridx >= 0 && err.None?
      modifies this, rstack
      ensures !ok ==> objs <= old(objs) && Did(old(Step(env, Abs(), Unread())), old(Unread()), false)
      ensures ok ==> Core() && ridx == old(ridx) && err.None? && objs == old(objs) && rstack[ridx].ty.Some?
      ensures ok ==>
                var o, u := TypedStep(env, frames, rstack[ridx].ty.value, Unread()), old(Unread());
                if old(rstack[ridx].ty.Some?) then u == Unread() && old(Step(env, Abs(), Unread())) == o
                else u != [] && u[1..] == Unread() && old(Step(env, Abs(), Unread())) == Shift(o, 1)
    {
      hide TypedStep, TypeOf, Levels, Consistent;
      ok := true;
      if rstack[ridx].ty.None? {
        ghost var u := Unread();
        var b := ReadByte();
        if b.None? {
          return false;
        }
        var ty := TypeOf(b.value);
        if ty.None? {
          SetError(BadType(b.value), u);
          return false;
        }
        SetType(ty.value);
      }
    }

    lemma DidAfterType(o: Outcome, u: seq<byte>, ok: bool)
      requires u != [] && Did(o, u[1..], ok)
      ensures Did(Shift(o, 1), u, ok)
    {
      hide Core;
      if !o.Broken? {
        assert u[1..][o.used..] == u[1 + o.used..];
      }
    }

    method ProcessItem() returns (ok: bool)
      requires Core() && ridx >= 0 && err.None?
      modifies this, rstack, objs
      ensures fresh(objs - old(objs))
      ensures Did(old(Step(env, Abs(), Unread())), old(Unread()), ok)
    {
      hide Levels, Consistent, Did, Step, TypedStep;
      ok := ReadType();
      if !ok {
        return;
      }
      ghost var o := TypedStep(env, frames, rstack[ridx].ty.value, Unread());
      match rstack[ridx].ty.value {
        case TString => ok := ProcessBulkItem();
        case TAggregate(_) => ok := ProcessAggregateItem();
        case _ => ok := ProcessLineItem();
      }
      if old(rstack[ridx].ty.None?) {
        DidAfterType(o, old(Unread()), ok);
      }
    }

    // Append received bytes; refused once the reader has failed.
    method Feed(chunk: seq<byte>) returns (ok: bool)
      requires Valid()
      modifies this`buf
      ensures Valid()
      ensures ok <==> err.None?
      ensures Unread() == old(Unread()) + if ok then chunk else []
    {
      if err.Some? {
        return false;
      }
      if |chunk| >= 1 {
        ghost var u := Unread();
        buf := buf + chunk;
        assert Unread() == u + chunk;
      }
      ok := true;
    }

    // Where the loop of GetReply stops, if r is the run it started.
    ghost predicate Stopped(r: Result)
      reads this, rstack, objs
    {
      && Core() && PendingFits()
      && if err.Some? then Valid() && r == Result([], Failed(err.value))
         else if ridx >= 0 then r == Result([], Waiting(Abs(), Unread()))
         else reply != null && reply in forest && r == Prepend(Some(forest[reply]), Run(env, INITIAL, Unread()))
    }

    method ProcessItems()
      requires Core() && PendingFits() && ridx >= 0 && err.None?
      modifies this, rstack, objs
      ensures fresh(objs - old(objs))
      ensures Stopped(old(Run(env, Abs(), Unread())))
      ensures err.None? && ridx == -1 ==> |buf| - pos < old(|buf| - pos)
    {
      hide Step, Run, Levels, Consistent;
      while ridx >= 0
        invariant Core() && PendingFits() && err.None? && fresh(objs - old(objs))
        invariant if ridx >= 0 then Run(env, Abs(), Unread()) == old(Run(env, Abs(), Unread()))
                  else Stopped(old(Run(env, Abs(), Unread())))
        invariant |buf| - pos <= old(|buf| - pos) - (if ridx < 0 then 1 else 0)
        decreases |buf| - pos
      {
        RunUnfolds(env, Abs(), Unread());
        var ok := ProcessItem();
        if !ok {
          break;
        }
      }
    }

    // One call: at most one reply, and then the reader is back in its initial state.
    // built shows which tree the returned object is the root of.
    method GetReply() returns (ok: bool, out: ReplyObject?, ghost built: Forest)
      requires Valid()
      modifies this, rstack, objs
      ensures Valid() && fresh(objs - old(objs)) && fresh(built.Keys - old(objs))
      ensures old(err).Some? ==> !ok && out == null && err == old(err)
      ensures old(err).None? ==>
                var r := old(Run(env, Abs(), Unread()));
                if !ok then out == null && err.Some? && r == Result([], Failed(err.value))
                else if out == null then err.None? && r == Result([], Waiting(Abs(), Unread()))
                else && err.None? && Abs() == INITIAL && objs == {}
                     && out in built && Consistent(built)
                     && r == Prepend(Some(built[out]), Run(env, INITIAL, Unread()))
      ensures out != null ==> |Unread()| < |old(Unread())|
    {
      hide Step, Run, Levels, Consistent, Prepend;
      ok, out, built := false, null, map[];
      if err.Some? {
        return;
      }
      if |buf| == 0 {
        NothingToRead();
        return true, null, map[];
      }
      if ridx == -1 {
        rstack[0] := Task(None, -1, -1, null, None);
        ridx := 0;
        EmptyLevels();
      }
      ProcessItems();
      if err.Some? {
        return false, null, map[];
      }
      Compact();
      if ridx == -1 {
        out, built := Release();
      }
      ok := true;
    }

    // Discard the consumed part of the buffer once it is large enough.
    method Compact()
      requires Core()
      modifies this`buf, this`pos
      ensures Core() && Unread() == old(Unread())
    {
      hide Levels, Consistent;
      if pos >= COMPACT_AT {
        ghost var u := Unread();
        buf := buf[pos..];
        pos := 0;
        assert Unread() == u;
      }
    }

    // Hand out the finished reply.
    method Release() returns (out: ReplyObject?, ghost built: Forest)
      requires Core() && ridx == -1 && err.None? && reply != null && reply in forest
      modifies this`reply, this`forest, this`objs
      ensures Valid() && Abs() == INITIAL && objs == {}
      ensures out == old(reply) && built == old(forest) && Consistent(built)
    {
      hide Levels, Consistent;
      out, built := reply, forest;
      reply := null;
      forest, objs := map[], {};
      EmptyForest();
    }

    lemma NothingToRead()
      requires Valid() && Unread() == []
      ensures Run(env, Abs(), Unread()) == Result([], Waiting(Abs(), Unread()))
    {
      AbsGood();
      assert Step(env, Abs(), []) == Stuck(Abs(), 0);
    }

    lemma EmptyLevels()
      requires ridx == 0 && frames == [] && rstack.Length == MAX_OPEN + 1 && rstack[0].parent == None
      ensures Levels(0)
    {
    }

    lemma EmptyForest()
      ensures Consistent(map[])
    {
    }
  }

  // --- a client ---

  // The objects handed out show these trees.
  ghost predicate AllShow(outs: seq<ReplyObject>, trees: seq<Reply>, built: seq<Forest>)
    reads set i, o | 0 <= i < |built| && o in built[i] :: o
  {
    && |outs| == |trees| == |built|
    && forall i :: 0 <= i < |outs| ==>
         outs[i] in built[i] && built[i][outs[i]] == trees[i] && Consistent(built[i])
  }

  // Later calls on the reader do not touch what was handed out.
  ghost predicate Released(r: Reader, built: seq<Forest>)
    reads r
  {
    forall i :: 0 <= i < |built| ==> built[i].Keys !! r.objs
  }

  ghost function EndOf(r: Reader): (e: End)
    requires r.Valid()
    reads r, r.rstack, r.objs
  {
    if r.err.Some? then Failed(r.err.value) else Waiting(r.Abs(), r.Unread())
  }

  lemma AllShowNothing()
    ensures AllShow([], [], [])
  {
  }

  lemma AllShowOne(out: ReplyObject, forest: Forest)
    requires out in forest && Consistent(forest)
    ensures AllShow([out], [forest[out]], [forest])
  {
  }

  lemma AllShowAppend(outs: seq<ReplyObject>, trees: seq<Reply>, built: seq<Forest>,
                      outs': seq<ReplyObject>, trees': seq<Reply>, built': seq<Forest>)
    requires AllShow(outs, trees, built) && AllShow(outs', trees', built')
    ensures AllShow(outs + outs', trees + trees', built + built')
  {
  }

  // Take replies until there are no more.
  method TakeAll(r: Reader) returns (outs: seq<ReplyObject>, ghost trees: seq<Reply>, ghost built: seq<Forest>)
    requires r.Valid() && r.err.None?
    modifies r, r.rstack, r.objs
    ensures r.Valid() && fresh(r.objs - old(r.objs))
    ensures AllShow(outs, trees, built) && Released(r, built)
    ensures forall i :: 0 <= i < |built| ==> fresh(built[i].Keys - old(r.objs))
    ensures old(Run(r.env, r.Abs(), r.Unread())) == Result(trees, EndOf(r))
  {
    hide Run, Step, Prepend, Then, Consistent, Reader.Levels, AllShow;
    AllShowNothing();
    ThenNothing(old(Run(r.env, r.Abs(), r.Unread())));
    outs, trees, built := [], [], [];
    var done := false;
    while !done
      invariant r.Valid() && fresh(r.objs - old(r.objs))
      invariant AllShow(outs, trees, built) && Released(r, built)
      invariant forall i :: 0 <= i < |built| ==> fresh(built[i].Keys - old(r.objs))
      invariant !done ==> r.err.None?
      invariant old(Run(r.env, r.Abs(), r.Unread()))
                == Then(trees, if done then Result([], EndOf(r)) else Run(r.env, r.Abs(), r.Unread()))
      decreases !done, |r.Unread()|
    {
      var ok, out;
      ghost var forest;
      ok, out, forest := r.GetReply();
      if out == null {
        done := true;
      } else {
        ThenPrepend(trees, forest[out], Run(r.env, r.Abs(), r.Unread()));
        AllShowOne(out, forest);
        AllShowAppend(outs, trees, built, [out], [forest[out]], [forest]);
        outs, trees, built := outs + [out], trees + [forest[out]], built + [forest];
      }
    }
    ThenEnd(trees, EndOf(r));
  }

  // Replies already taken, and then the rest of the run.
  ghost function Then(trees: seq<Reply>, more: Result): Result {
    Result(trees + more.replies, more.end)
  }

  lemma ThenNothing(more: Result)
    ensures Then([], more) == more
  {
    assert [] + more.replies == more.replies;
  }

  lemma ThenPrepend(trees: seq<Reply>, t: Reply, more: Result)
    ensures Then(trees, Prepend(Some(t), more)) == Then(trees + [t], more)
  {
    assert trees + ([t] + more.replies) == trees + [t] + more.replies;
  }

  lemma ThenEnd(trees: seq<Reply>, end: End)
    ensures Then(trees, Result([], end)) == Result(trees, end)
  {
  }

  // Feed chunk after chunk, taking all replies after each one. However the input is
  // cut up, the objects handed out and the final error are what the grammar says.
  method ParseChunks(env: Env, chunks: seq<seq<byte>>)
    returns (outs: seq<ReplyObject>, err: Option<Fault>, ghost trees: seq<Reply>, ghost built: seq<Forest>)
    ensures AllShow(outs, trees, built)
    ensures (trees, err) == ParseAll(env, Concat(chunks))
  {
    hide Run, Step, ParseAll, Consistent, Concat, AllShow, FeedAll;
    hide Reader.Levels, Reader.Core, Reader.PendingFits;
    var r := new Reader(env);
    AllShowNothing();
    outs, trees, built := [], [], [];
    var n := 0;
    assert chunks[0..] == chunks;
    while n < |chunks| && r.err.None?
      invariant n <= |chunks|
      invariant r.Valid() && r.env == env && fresh(r) && fresh(r.rstack) && fresh(r.objs)
      invariant AllShow(outs, trees, built) && Released(r, built)
      invariant FeedAll(env, NOTHING_YET, chunks) == FeedAll(env, Result(trees, EndOf(r)), chunks[n..])
    {
      FeedAllUnfolds(env, Result(trees, EndOf(r)), chunks[n..]);
      assert chunks[n..][1..] == chunks[n + 1..];
      var fed := r.Feed(chunks[n]);
      var outs', trees', built' := TakeAll(r);
      AllShowAppend(outs, trees, built, outs', trees', built');
      outs, trees, built := outs + outs', trees + trees', built + built';
      n := n + 1;
    }
    err := r.err;
    ChunksDone(env, chunks, n, trees, EndOf(r));
  }

  // Once all chunks are fed or the reader has failed, the replies and the error are those of the grammar.
  lemma ChunksDone(env: Env, chunks: seq<seq<byte>>, n: nat, trees: seq<Reply>, end: End)
    requires n <= |chunks| && (end.Waiting? ==> n == |chunks|)
    requires FeedAll(env, NOTHING_YET, chunks) == FeedAll(env, Result(trees, end), chunks[n..])
    ensures (trees, if end.Failed? then Some(end.fault) else None) == ParseAll(env, Concat(chunks))
  {
    hide Run, FeedAll, ParseAll, Concat;
    if end.Failed? {
      FeedAllFrom(env, Result(trees, end), chunks[n..]);
    } else {
      assert chunks[n..] == [];
      FeedAllUnfolds(env, Result(trees, end), []);
    }
    ChunkIndependence(env, chunks);
    MachineRefinesGrammar(env, Concat(chunks));
  }

  // A leaf taken from the first used bytes.
  ghost function LeafOutcome(stack: seq<Frame>, t: Reply, used: nat): (o: Outcome) {
    var (stack', out) := Deliver(stack, t);
    Moved(State(stack', None), used, out)
  }

  lemma DeliverUnfolds(stack: seq<Frame>, t: Reply)
    ensures Deliver(stack, t)
            == if stack == [] then ([], Some(t))
               else
                 var top, below := stack[|stack| - 1], stack[..|stack| - 1];
                 if |top.done| + 1 == top.count then Deliver(below, Aggregate(top.kind, top.done + [t]))
                 else (below + [top.(done := top.done + [t])], None)
  {
  }

  // Index of the first CRLF, by the two nested scans of the source.
  method SeekNewline(s: seq<byte>) returns (r: Option<nat>)
    ensures r == Newline(s)
  {
    var pos, last := 0, |s| - 1;
    while pos < last
      invariant 0 <= pos && (pos <= last || pos == 0)
      invariant forall j :: 0 <= j < pos ==> !NewlineAt(s, j)
    {
      while pos < last && s[pos] != CR
        invariant 0 <= pos <= last
        invariant forall j :: 0 <= j < pos ==> !NewlineAt(s, j)
      {
        pos := pos + 1;
      }
      if pos == last {
        return None;
      } else if s[pos + 1] == LF {
        assert NewlineAt(s, pos);
        return Some(pos);
      } else {
        pos := pos + 1;
      }
    }
    return None;
  }
}
