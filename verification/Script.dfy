/** Everything done to an asynchronous context, in order, and what of it was accepted. */
module Script {
  import opened Bytes
  import Classify
  import Lists = CallbackList

  // What a program asks of a context, from outside or from inside a callback.
  datatype Action = Command(fn: bool, cmd: Classify.RegularCommand) | Disconnect | Free

  // Shut is the engine's own closing of the connection on an error.
  datatype Deed = ByUser(action: Action) | ByCallback(action: Action) | Shut

  datatype Request = Request(fn: bool, cmd: seq<byte>)

  // Whether commands are refused afterwards.
  predicate Closes(d: Deed) {
    d.Shut? || !d.action.Command?
  }

  predicate Closed(s: seq<Deed>) {
    s != [] && (Closed(s[..|s| - 1]) || Closes(s[|s| - 1]))
  }

  // The commands issued before anything closed the connection.
  function Accepted(s: seq<Deed>): (r: seq<Request>) {
    if s == [] then []
    else
      var front, last := s[..|s| - 1], s[|s| - 1];
      Accepted(front)
      + if Closed(front) || Closes(last) then [] else [Request(last.action.fn, last.action.cmd)]
  }

  // Their bytes, one after the other.
  function BytesOf(rs: seq<Request>): (b: seq<byte>) {
    if rs == [] then [] else BytesOf(rs[..|rs| - 1]) + rs[|rs| - 1].cmd
  }

  // What the user did, and what callbacks did.
  function Users(s: seq<Deed>): (a: seq<Action>) {
    if s == [] then []
    else
      var last := s[|s| - 1];
      Users(s[..|s| - 1]) + if last.ByUser? then [last.action] else []
  }

  function Backs(s: seq<Deed>): (a: seq<Action>) {
    if s == [] then []
    else
      var last := s[|s| - 1];
      Backs(s[..|s| - 1]) + if last.ByCallback? then [last.action] else []
  }

  lemma DeedStep(s: seq<Deed>, d: Deed)
    ensures Users(s + [d]) == Users(s) + if d.ByUser? then [d.action] else []
    ensures Backs(s + [d]) == Backs(s) + if d.ByCallback? then [d.action] else []
  {
    assert (s + [d])[..|s|] == s;
  }

  // The callbacks registered, the bytes appended and the closing flags are those of the script.
  ghost predicate Obeys(s: seq<Deed>, registered: seq<Lists.Callback>, appended: seq<byte>, closing: bool) {
    var rs := Accepted(s);
    && |registered| == |rs| && (forall i :: 0 <= i < |rs| ==> registered[i].fn == rs[i].fn)
    && appended == BytesOf(rs) && (closing <==> Closed(s))
  }

  lemma ObeysCommand(s: seq<Deed>, registered: seq<Lists.Callback>, appended: seq<byte>, closing: bool,
                     d: Deed, id: nat)
    requires Obeys(s, registered, appended, closing) && !Closes(d)
    ensures if closing then Obeys(s + [d], registered, appended, true)
            else Obeys(s + [d], registered + [Lists.Callback(id, d.action.fn)], appended + d.action.cmd, false)
  {
    hide Accepted, BytesOf, Closed, Classify.KindOf;
    AcceptedStep(s, d);
    var rs, r := Accepted(s), Request(d.action.fn, d.action.cmd);
    BytesStep(rs, r);
    assert forall i :: 0 <= i < |rs| ==> (rs + [r])[i] == rs[i];
  }

  lemma AcceptedStep(s: seq<Deed>, d: Deed)
    ensures Closed(s + [d]) <==> Closed(s) || Closes(d)
    ensures Accepted(s + [d])
            == if Closed(s) || Closes(d) then Accepted(s) else Accepted(s) + [Request(d.action.fn, d.action.cmd)]
  {
    hide Classify.KindOf;
    assert (s + [d])[..|s|] == s;
    assert Accepted(s) + [] == Accepted(s);
  }

  lemma BytesStep(rs: seq<Request>, r: Request)
    ensures BytesOf(rs + [r]) == BytesOf(rs) + r.cmd
  {
    assert (rs + [r])[..|rs|] == rs;
  }

  lemma ObeysClosing(s: seq<Deed>, registered: seq<Lists.Callback>, appended: seq<byte>, closing: bool, d: Deed)
    requires Obeys(s, registered, appended, closing) && Closes(d)
    ensures Obeys(s + [d], registered, appended, true)
  {
    hide Accepted, BytesOf, Closed;
    AcceptedStep(s, d);
  }

  // The flags of a context; manual contexts are not freed with their connection.
  datatype Flags = Flags(disconnecting: bool, freeing: bool, manual: bool)

  function Mark(f: Flags, d: Deed): Flags {
    match d
    case Shut => f.(disconnecting := true)
    case _ =>
      match d.action
      case Command(_, _) => f
      case Disconnect => f.(disconnecting := true, manual := false)
      case Free => f.(freeing := true)
  }

  function FlagsOf(manual: bool, s: seq<Deed>): (f: Flags) {
    if s == [] then Flags(false, false, manual) else Mark(FlagsOf(manual, s[..|s| - 1]), s[|s| - 1])
  }

  lemma FlagStep(manual: bool, s: seq<Deed>, d: Deed)
    ensures FlagsOf(manual, s + [d]) == Mark(FlagsOf(manual, s), d)
  {
    assert (s + [d])[..|s|] == s;
  }

  // Somebody asked for it.
  predicate Wanted(s: seq<Deed>, a: Action) {
    ByUser(a) in s || ByCallback(a) in s
  }

  // What the flags say of the script.
  lemma {:induction false} FlagsTell(manual: bool, s: seq<Deed>)
    ensures var f := FlagsOf(manual, s);
            && (f.freeing <==> Wanted(s, Free))
            && (f.disconnecting <==> Wanted(s, Disconnect) || Shut in s)
            && (f.manual <==> manual && !Wanted(s, Disconnect))
  {
    hide Wanted, Mark;
    if s == [] {
      NothingWanted();
    } else {
      var front, last := s[..|s| - 1], s[|s| - 1];
      FlagsTell(manual, front);
      assert s == front + [last];
      WantedStep(front, last);
      MarkTells(FlagsOf(manual, front), last);
    }
  }

  lemma NothingWanted()
    ensures forall a :: !Wanted([], a)
  {
  }

  lemma WantedStep(s: seq<Deed>, d: Deed)
    ensures forall a :: Wanted(s + [d], a) <==> Wanted(s, a) || d == ByUser(a) || d == ByCallback(a)
    ensures Shut in s + [d] <==> Shut in s || d == Shut
  {
  }

  lemma MarkTells(f: Flags, d: Deed)
    ensures var free := d == ByUser(Free) || d == ByCallback(Free);
            var close := d == ByUser(Disconnect) || d == ByCallback(Disconnect);
            Mark(f, d) == Flags(f.disconnecting || close || d == Shut, f.freeing || free, f.manual && !close)
  {
  }

  // The callbacks that have run did not ask for the context to be freed.
  lemma NoneFreed(program: seq<seq<Action>>, s: seq<Deed>, n: nat, tape: seq<seq<Action>>)
    requires Played(program, s, n, tape) && !Wanted(s, Free)
    ensures forall j :: 0 <= j < n && j < |program| ==> Free !in program[j]
  {
    hide Flatten, Backs, Users, Wanted;
    forall j | 0 <= j < n && j < |program| && Free in program[j]
      ensures false
    {
      var k := if n < |program| then n else |program|;
      InFlatten(program[..k], j, Free);
      WantedIs(s, Free);
    }
  }

  lemma {:induction false} InFlatten(tape: seq<seq<Action>>, j: nat, a: Action)
    requires j < |tape| && a in tape[j]
    ensures a in Flatten(tape)
  {
    if j < |tape| - 1 {
      InFlatten(tape[..|tape| - 1], j, a);
    }
  }

  // What is wanted is what the user or a callback did.
  lemma {:induction false} WantedIs(s: seq<Deed>, a: Action)
    ensures Wanted(s, a) <==> a in Users(s) || a in Backs(s)
  {
    if s != [] {
      var front, last := s[..|s| - 1], s[|s| - 1];
      assert s == front + [last];
      WantedIs(front, a);
      DeedStep(front, last);
      WantedStep(front, last);
    }
  }

  lemma NothingDone(program: seq<seq<Action>>)
    ensures Obeys([], [], [], false) && Played(program, [], 0, program) && Users([]) == []
    ensures forall manual :: FlagsOf(manual, []) == Flags(false, false, manual)
  {
  }

  function Flatten(tape: seq<seq<Action>>): (a: seq<Action>) {
    if tape == [] then [] else Flatten(tape[..|tape| - 1]) + tape[|tape| - 1]
  }

  // After n calls of user functions: the k-th call did what the k-th entry of the program says.
  ghost predicate Played(program: seq<seq<Action>>, s: seq<Deed>, n: nat, tape: seq<seq<Action>>) {
    var k := if n < |program| then n else |program|;
    tape == program[k..] && Backs(s) == Flatten(program[..k])
  }

  lemma PlayedNext(program: seq<seq<Action>>, s: seq<Deed>, n: nat, tape: seq<seq<Action>>, s': seq<Deed>)
    requires Played(program, s, n, tape)
    requires Backs(s') == Backs(s) + if tape != [] then tape[0] else []
    ensures Played(program, s', n + 1, if tape != [] then tape[1..] else [])
  {
    hide Backs;
    if tape != [] {
      assert program[..n + 1][..n] == program[..n];
    }
  }

  lemma PlayedSame(program: seq<seq<Action>>, s: seq<Deed>, n: nat, tape: seq<seq<Action>>, s': seq<Deed>)
    ensures Backs(s') == Backs(s) ==> (Played(program, s, n, tape) <==> Played(program, s', n, tape))
  {
  }
}
