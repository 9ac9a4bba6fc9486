/** The asynchronous engine on regular commands: callback queue, flags, deferred free.
    A run never loses, repeats or reorders a callback. */
module Async {
  import opened Bytes
  import opened Resp
  import opened RespTheorems
  import opened Script
  import Classify
  import Lists = CallbackList
  import Readers = Reader

  type Callback = Lists.Callback

  // --- what a run did ---

  // A callback taken from the queue, with the reply it was taken for (none at teardown).
  datatype Entry = Entry(cb: Callback, reply: Option<Reply>)

  // The callbacks of all accepted commands, the queue entries consumed so far, how many
  // of those were answered, and the replies received.
  datatype History = History(accepted: seq<Callback>, log: seq<Entry>, answered: nat, got: seq<Reply>)

  datatype Call = Call(id: nat, reply: Option<Reply>)

  // The calls of user functions a log stands for: entries without a function call nothing.
  function Called(log: seq<Entry>): (calls: seq<Call>) {
    if log == [] then []
    else
      var last := log[|log| - 1];
      Called(log[..|log| - 1]) + if last.cb.fn then [Call(last.cb.id, last.reply)] else []
  }

  // Commands are numbered in order of acceptance; the queue holds what the log does not;
  // the first answered entries got the replies in order, later ones none.
  ghost predicate Sound(h: History, pending: seq<Callback>) {
    && (forall i :: 0 <= i < |h.accepted| ==> h.accepted[i].id == i)
    && |h.log| <= |h.accepted| && pending == h.accepted[|h.log|..]
    && h.answered <= |h.log| && h.answered <= |h.got| <= h.answered + 1
    && forall k :: 0 <= k < |h.log| ==>
         h.log[k] == Entry(h.accepted[k], if k < h.answered then Some(h.got[k]) else None)
  }

  // A user function that asks for the context to be freed is the last to get a reply.
  ghost predicate NoReplyAfterFree(program: seq<seq<Action>>, calls: seq<Call>) {
    forall j, k :: 0 <= j < k < |calls| && j < |program| && Free in program[j] ==> calls[k].reply.None?
  }

  // The reply command i was called back with.
  ghost function ReplyFor(h: History, i: nat): (r: Option<Reply>)
    requires h.answered <= |h.got|
  {
    if i < h.answered then Some(h.got[i]) else None
  }

  ghost function TimesCalled(calls: seq<Call>, id: nat): (n: nat) {
    if calls == [] then 0
    else TimesCalled(calls[..|calls| - 1], id) + if calls[|calls| - 1].id == id then 1 else 0
  }

  ghost predicate InOrder(calls: seq<Call>) {
    forall a, b :: 0 <= a < b < |calls| ==> calls[a].id < calls[b].id
  }

  // Once nothing is pending, every accepted command with a function was called back
  // exactly once, one without a function never; the calls came in the order of the
  // commands, the k-th with the k-th reply, or with none.
  lemma ExactlyOnceInOrder(h: History)
    requires Sound(h, [])
    ensures InOrder(Called(h.log))
    ensures forall i :: 0 <= i < |h.accepted| ==>
              TimesCalled(Called(h.log), i) == if h.accepted[i].fn then 1 else 0
    ensures forall c :: c in Called(h.log) ==> c.id < |h.accepted| && c.reply == ReplyFor(h, c.id)
  {
    assert h.accepted[|h.log|..] == [] ==> |h.log| == |h.accepted|;
    CalledPrefix(h, |h.log|);
    assert h.log[..|h.log|] == h.log;
  }

  lemma {:induction false} CalledPrefix(h: History, n: nat)
    requires |h.log| <= |h.accepted| && Sound(h, h.accepted[|h.log|..]) && n <= |h.log|
    ensures var calls := Called(h.log[..n]);
            && InOrder(calls)
            && (forall c :: c in calls ==> c.id < n && c.reply == ReplyFor(h, c.id))
            && (forall i :: 0 <= i < |h.accepted| ==>
                  TimesCalled(calls, i) == if i < n && h.accepted[i].fn then 1 else 0)
  {
    hide TimesCalled, InOrder, Called, Sound;
    if n == 0 {
      NoCalls();
    } else {
      CalledPrefix(h, n - 1);
      var entry, before := h.log[n - 1], Called(h.log[..n - 1]);
      EntryAt(h, n - 1);
      CalledAppend(h.log[..n - 1], entry);
      assert h.log[..n] == h.log[..n - 1] + [entry];
      if entry.cb.fn {
        AddCall(before, Call(n - 1, entry.reply));
      } else {
        assert before + [] == before;
      }
    }
  }

  lemma EntryAt(h: History, k: nat)
    requires |h.log| <= |h.accepted| && Sound(h, h.accepted[|h.log|..]) && k < |h.log|
    ensures h.log[k].cb == h.accepted[k] && h.accepted[k].id == k && h.log[k].reply == ReplyFor(h, k)
  {
  }

  lemma NoCalls()
    ensures Called([]) == [] && InOrder([]) && forall i :: TimesCalled([], i) == 0
  {
  }

  lemma CalledAppend(log: seq<Entry>, entry: Entry)
    ensures Called(log + [entry])
            == Called(log) + if entry.cb.fn then [Call(entry.cb.id, entry.reply)] else []
  {
    assert (log + [entry])[..|log|] == log;
  }

  lemma AddCall(calls: seq<Call>, c: Call)
    requires InOrder(calls) && forall d :: d in calls ==> d.id < c.id
    ensures InOrder(calls + [c])
    ensures forall i :: TimesCalled(calls + [c], i) == TimesCalled(calls, i) + if c.id == i then 1 else 0
  {
    assert (calls + [c])[..|calls|] == calls;
  }

  lemma CallAfterFree(program: seq<seq<Action>>, calls: seq<Call>, c: Call)
    requires NoReplyAfterFree(program, calls)
    requires c.reply.Some? ==> forall j :: 0 <= j < |calls| && j < |program| ==> Free !in program[j]
    ensures NoReplyAfterFree(program, calls + [c])
  {
  }

  lemma SoundAccept(h: History, pending: seq<Callback>, fn: bool)
    requires Sound(h, pending)
    ensures var cb := Lists.Callback(|h.accepted|, fn);
            Sound(h.(accepted := h.accepted + [cb]), pending + [cb])
  {
  }

  lemma SoundBound(h: History, pending: seq<Callback>)
    requires Sound(h, pending)
    ensures |h.log| + |pending| == |h.accepted| && h.answered <= |h.log| && h.answered <= |h.got|
  {
  }

  lemma SoundReceive(h: History, pending: seq<Callback>, t: Reply)
    requires Sound(h, pending) && |h.got| == h.answered
    ensures Sound(h.(got := h.got + [t]), pending)
  {
  }

  lemma SoundConsume(h: History, cb: Callback, rest: seq<Callback>, reply: Option<Reply>)
    requires Sound(h, [cb] + rest)
    requires reply.Some? ==> |h.got| == h.answered + 1 == |h.log| + 1 && reply.value == h.got[h.answered]
    ensures Sound(h.(log := h.log + [Entry(cb, reply)], answered := h.answered + if reply.Some? then 1 else 0), rest)
  {
    assert h.accepted[|h.log|..][0] == cb;
    assert h.accepted[|h.log| + 1..] == h.accepted[|h.log|..][1..] == ([cb] + rest)[1..] == rest;
  }

  // --- the engine ---

  datatype ReadOutcome = Data(chunk: seq<byte>) | ReadAgain | Eof | ReadFailed
  datatype WriteOutcome = Wrote(n: nat) | WouldBlock | WriteFailed
  datatype ConnectOutcome = Refused | Completed | InProgress

  datatype Event =
    | Issue(fn: bool, cmd: Classify.RegularCommand)
    | UserDisconnect
    | UserFree
    | Readable(rconn: ConnectOutcome, read: ReadOutcome)
    | Writable(wconn: ConnectOutcome, write: WriteOutcome)
    | Timeout

  // What can be told of a context from outside.
  datatype View = View(connected: bool, err: nat, script: seq<Deed>, received: seq<byte>, sent: seq<byte>,
                       h: History, freed: bool, aborted: bool, manual: bool)

  ghost function Marked(v: View): Flags {
    FlagsOf(v.manual, v.script)
  }

  // The commands not yet taken from the queue, and the bytes not yet sent.
  ghost function Pending(v: View): int {
    |v.h.accepted| - |v.h.log|
  }

  ghost function Unsent(v: View): (b: seq<byte>) {
    var appended := BytesOf(Accepted(v.script));
    if v.sent <= appended then appended[|v.sent|..] else []
  }

  // The server sent a reply, not an error, that no command asked for.
  ghost predicate Over(h: History) {
    |h.got| > h.answered && !h.got[h.answered].Error? && h.answered == |h.accepted|
  }

  // A write would block with callbacks pending and no error recorded.
  ghost predicate Blocks(v: View, e: Event) {
    && e.Writable? && e.write.WouldBlock? && Ready(v, e.wconn) && v.err == 0
    && Unsent(v) != [] && Pending(v) > 0
  }

  function Prefix(b: seq<byte>, n: nat): (p: seq<byte>) {
    if n < |b| then b[..n] else b
  }

  // Whether a socket event finds the connection made and without an error.
  predicate Ready(v: View, connect: ConnectOutcome) {
    v.connected || connect.Completed?
  }

  // How an event changes a context: which deed of the user it adds, what is received and sent, and what
  // becomes of the error and the pending callbacks. The deeds of callbacks are those of the program. An
  // assertion fails only in a read and in a write that blocks.
  ghost predicate Follows(v: View, e: Event, w: View) {
    v.script <= w.script && w.manual == v.manual &&
    match e
    case Issue(fn, cmd) =>
      w == v.(script := v.script + [ByUser(Command(fn, cmd))], h := w.h) && w.h == v.h.(accepted := w.h.accepted)
    case UserDisconnect =>
      && w == v.(script := w.script, freed := Pending(v) == 0)
      && Users(w.script) == Users(v.script) + [Disconnect]
    case UserFree =>
      && w == v.(script := w.script, h := w.h, freed := true) && w.h == v.h.(log := w.h.log)
      && Users(w.script) == Users(v.script) + [Free]
    case Readable(connect, read) =>
      && Users(w.script) == Users(v.script) && w.sent == v.sent && w.connected == Ready(v, connect)
      && w.received == v.received + (if Ready(v, connect) && v.err == 0 && read.Data? then read.chunk else [])
      && (!Ready(v, connect) ==> NotReady(v, connect, w))
      && (Ready(v, connect) && v.err == 0 && read.Eof? ==> w.err == ERR_EOF)
      && (Ready(v, connect) && v.err == 0 && read.ReadFailed? ==> w.err == ERR_IO)
      && (w.aborted <==> Over(w.h))
      && (Ready(v, connect) && !w.aborted ==>
            (w.freed <==> if w.err != 0 then !Marked(w).manual else Due(w)))
      && (Ready(v, connect) && v.err == 0 && !w.aborted && Marked(w).freeing ==> w.freed)
    case Writable(connect, write) =>
      && Users(w.script) == Users(v.script) && w.received == v.received && w.connected == Ready(v, connect)
      && w.h.got == v.h.got
      && w.sent == v.sent + (if Ready(v, connect) && v.err == 0 && write.Wrote? then Prefix(Unsent(v), write.n) else [])
      && (!Ready(v, connect) ==> NotReady(v, connect, w))
      && (Ready(v, connect) && v.err == 0 && (write.Wrote? || Unsent(v) == []) ==>
            w == v.(connected := true, sent := w.sent))
      && (Ready(v, connect) && v.err == 0 && write.WriteFailed? && Unsent(v) != [] ==> w.err == ERR_IO)
      && (w.aborted <==> Blocks(v, e))
      && (w.freed <==> && !w.aborted && !Marked(w).manual
                       && (Ready(v, connect) && v.err == 0 ==> !write.Wrote? && Unsent(v) != [])
                       && (!Ready(v, connect) ==> !connect.InProgress?))
    case Timeout =>
      && Users(w.script) == Users(v.script) && w.received == v.received && w.sent == v.sent
      && w.connected == v.connected && w.h.got == v.h.got
      && if v.connected && Pending(v) == 0 then w == v
         else w.err == (if v.err == 0 then ERR_TIMEOUT else v.err) && Pending(w) == 0 && !w.aborted
              && (w.freed <==> !Marked(w).manual)
  }

  // Without an error a read ends the context if a callback freed it, or if a disconnect was asked for and
  // everything has been sent and answered.
  ghost predicate Due(w: View) {
    Marked(w).freeing || (Marked(w).disconnecting && Unsent(w) == [] && Pending(w) == 0)
  }

  lemma ConnectedRead(v0: View, v: View, connect: ConnectOutcome, read: ReadOutcome, w: View)
    requires Ready(v0, connect) && v == v0.(connected := true) && Follows(v, Readable(Completed, read), w)
    ensures Follows(v0, Readable(connect, read), w)
  {
    hide Users, Accepted, BytesOf;
  }

  lemma ConnectedWrite(v0: View, v: View, connect: ConnectOutcome, write: WriteOutcome, w: View)
    requires Ready(v0, connect) && v == v0.(connected := true) && Follows(v, Writable(Completed, write), w)
    ensures Follows(v0, Writable(connect, write), w)
  {
    hide Users, Accepted, BytesOf;
  }

  // A connection still being made changes nothing; a refused one is an error.
  ghost predicate NotReady(v: View, connect: ConnectOutcome, w: View) {
    if connect.InProgress? then w == v
    else w.err == ERR_IO && w.h.got == v.h.got && !w.aborted && (w.freed <==> !Marked(w).manual)
  }

  const ERR_IO: nat := 1
  const ERR_OTHER: nat := 2
  const ERR_EOF: nat := 3
  const ERR_PROTOCOL: nat := 4
  const ERR_OOM: nat := 5
  const ERR_TIMEOUT: nat := 6

  class AsyncContext {
    const replies: Lists.CallbackList
    const reader: Readers.Reader

    var err: nat
    var connected: bool
    var disconnecting: bool
    var freeing: bool
    var inCallback: bool
    var noAutoFree: bool
    var obuf: seq<byte>
    // Numbers the commands; stands for the private data given with each callback.
    var issued: nat

    // What the next callbacks will do, one entry per call; afterwards they do nothing.
    var tape: seq<seq<Action>>

    // The context is gone; or an assertion of the source failed and the program ended.
    var freed: bool
    var aborted: bool

    ghost var h: History
    ghost var calls: seq<Call>
    ghost var received: seq<byte>
    ghost var sent: seq<byte>
    ghost var appended: seq<byte>
    // Everything done to the context so far, and what callbacks were to do from the start.
    ghost var script: seq<Deed>
    ghost const program: seq<seq<Action>>
    // Whether the context was made not to be freed with its connection.
    ghost const manual: bool
    // A write would have blocked while callbacks were pending and no error was recorded.
    ghost var blocked: bool

    // The queue and the log fit together.
    ghost predicate Queued()
      reads this, replies, replies.repr
    {
      && replies.Valid()
      && (!aborted ==> Sound(h, replies.contents))
      && issued == |h.accepted|
      && sent + obuf == appended
      && Obeys(script, h.accepted, appended, disconnecting || freeing)
      && FlagsOf(manual, script) == Flags(disconnecting, freeing, noAutoFree)
      && (disconnecting && err == 0 ==> !noAutoFree)
    }

    // The user functions called are those the log asks for, and they did what the program says.
    ghost predicate Tracked()
      reads this
    {
      calls == Called(h.log) && Played(program, script, |calls|, tape) && NoReplyAfterFree(program, calls)
    }

    // All received replies were handed to callbacks.
    ghost predicate CaughtUp()
      reads this
    {
      h.answered == |h.log| == |h.got|
    }

    // The replies taken from the reader are those of the bytes received.
    ghost predicate Parsed()
      reads this, reader, reader.rstack, reader.objs
    {
      reader.Valid() && Reads(h.got, received)
    }

    // Of these bytes the reader has handed out these replies, and holds what comes after them.
    ghost predicate Reads(got: seq<Reply>, received: seq<byte>)
      requires reader.Valid()
      reads reader, reader.rstack, reader.objs
    {
      var more := if reader.err.Some? then Result([], Failed(reader.err.value))
                  else Run(reader.env, reader.Abs(), reader.Unread());
      Run(reader.env, INITIAL, received) == Result(got + more.replies, more.end)
    }

    // No reply of the bytes received is left in the reader, and no fault.
    ghost predicate Drained()
      reads this
    {
      Run(reader.env, INITIAL, received).replies == h.got && Run(reader.env, INITIAL, received).end.Waiting?
    }

    // A received reply that no callback got finds no callback waiting either.
    ghost predicate Settled()
      reads this, replies
    {
      |h.got| == h.answered || replies.contents == []
    }

    ghost predicate Valid()
      reads this, replies, replies.repr, reader, reader.rstack, reader.objs
    {
      && Queued() && Tracked() && Parsed() && !inCallback
      && (aborted <==> blocked || Over(h))
      && Explained()
      && (Alive() && freeing ==> err != 0 && noAutoFree && replies.contents == [])
      && (Alive() && err == 0 ==> CaughtUp() && Drained() && reader.err.None?)
      && (Alive() && |h.got| > h.answered ==> disconnecting && replies.contents == [])
      && (freed ==> !aborted && replies.contents == [])
    }

    // The error tells what the reader ran into, or that the server sent an error nobody asked for.
    ghost predicate Explained()
      reads this, reader
    {
      && (reader.err.Some? ==> err == if reader.err.value == OutOfMemory then ERR_OOM else ERR_PROTOCOL)
      && (!aborted && |h.got| > h.answered ==> err == ERR_OTHER && h.got[h.answered].Error?)
      && (reader.err.Some? || h.got != [] ==> connected)
    }

    ghost predicate Alive()
      reads this
    {
      !freed && !aborted
    }

    // Fields that callbacks and teardown leave alone.
    twostate predicate EnvKept()
      reads this
    {
      && err == old(err) && connected == old(connected) && blocked == old(blocked)
      && received == old(received) && sent == old(sent) && inCallback == old(inCallback)
      && (old(disconnecting) ==> disconnecting) && (old(freeing) ==> freeing) && (noAutoFree ==> old(noAutoFree))
    }

    ghost function Now(): View
      reads this
    {
      View(connected, err, script, received, sent, h, freed, aborted, manual)
    }

    // What one event leaves alone, however many callbacks run.
    twostate predicate Kept()
      reads this
    {
      connected == old(connected) && sent == old(sent) && received == old(received) && blocked == old(blocked)
      && Unasked()
    }

    // Nothing was done by the user meanwhile.
    twostate predicate Unasked()
      reads this
    {
      old(script) <= script && Users(script) == old(Users(script))
    }

    // The user's, or from inside a callback the callback's, own deed.
    ghost function Mine(action: Action): Deed
      reads this
    {
      if inCallback then ByCallback(action) else ByUser(action)
    }

    constructor (env: Env, noAutoFree: bool, tape: seq<seq<Action>>)
      ensures Valid() && Alive() && fresh(replies) && replies.repr == {}
      ensures fresh(reader) && fresh(reader.rstack) && fresh(reader.objs) && reader.env == env
      ensures h == History([], [], 0, []) && received == [] && sent == [] && err == 0 && !connected
      ensures script == [] && program == tape && manual == noAutoFree && !freed && !aborted
    {
      hide Run, Obeys, Played, FlagsOf, Readers.Reader.Valid;
      NothingReceived(env);
      NothingDone(tape);
      err, connected, disconnecting, freeing, inCallback := 0, false, false, false, false;
      this.noAutoFree, this.tape := noAutoFree, tape;
      obuf, sent, appended, received := [], [], [], [];
      script, program, manual := [], tape, noAutoFree;
      freed, aborted, blocked, issued := false, false, false, 0;
      h, calls := History([], [], 0, []), [];
      replies := new Lists.CallbackList();
      reader := new Readers.Reader(env);
    }

    static lemma NothingReceived(env: Env)
      ensures Run(env, INITIAL, []) == Result([], Waiting(INITIAL, []))
    {
      assert Step(env, INITIAL, []) == Stuck(INITIAL, 0);
    }

    // --- commands ---

    // Queue a regular command, unless the connection is about to close.
    method AsyncCommand(fn: bool, cmd: Classify.RegularCommand) returns (ok: bool)
      requires Queued() && !aborted
      modifies this`obuf, this`issued, this`h, this`appended, this`script, replies, replies.repr
      ensures Queued() && fresh(replies.repr - old(replies.repr))
      ensures script == old(script) + [Mine(Command(fn, cmd))]
      ensures ok <==> !disconnecting && !freeing
      ensures !ok ==> h == old(h) && replies.contents == old(replies.contents) && obuf == old(obuf)
      ensures ok ==> var cb := Lists.Callback(|old(h).accepted|, fn);
                     && h == old(h).(accepted := old(h).accepted + [cb])
                     && replies.contents == old(replies.contents) + [cb]
                     && appended == old(appended) + cmd && obuf == old(obuf) + cmd
    {
      hide Sound, Obeys, FlagsOf, Lists.CallbackList.Valid, Classify.KindOf;
      ghost var deed, closing := Mine(Command(fn, cmd)), disconnecting || freeing;
      ObeysCommand(script, h.accepted, appended, closing, deed, issued);
      FlagStep(manual, script, deed);
      script := script + [deed];
      if disconnecting || freeing {
        return false;
      }
      SoundAccept(h, replies.contents, fn);
      var cb := Lists.Callback(issued, fn);
      issued := issued + 1;
      replies.Push(cb);
      h := h.(accepted := h.accepted + [cb]);
      assert sent + (obuf + cmd) == sent + obuf + cmd;
      obuf, appended := obuf + cmd, appended + cmd;
      ok := true;
    }

    // --- running callbacks ---

    // User code calls the interface from inside a callback: only the queue, the output
    // buffer and the flags can change.
    method Act(action: Action)
      requires Queued() && Alive() && inCallback
      modifies this, replies, replies.repr
      ensures Queued() && Alive() && EnvKept() && fresh(replies.repr - old(replies.repr))
      ensures Grew(old(h), h, old(disconnecting || freeing))
      ensures calls == old(calls) && tape == old(tape) && script == old(script) + [ByCallback(action)]
      decreases 2, 0
    {
      hide Sound, Obeys, FlagsOf, Lists.CallbackList.Valid;
      match action
      case Command(fn, cmd) => var ok := AsyncCommand(fn, cmd);
      case Disconnect => AsyncDisconnect();
      case Free => AsyncFree();
    }

    method ActAll(actions: seq<Action>)
      requires Queued() && Alive() && inCallback
      modifies this, replies, replies.repr
      ensures Queued() && Alive() && EnvKept() && fresh(replies.repr - old(replies.repr))
      ensures Grew(old(h), h, old(disconnecting || freeing))
      ensures calls == old(calls) && tape == old(tape) && Unasked()
      ensures Backs(script) == old(Backs(script)) + actions
      decreases 2, 1
    {
      hide Sound, Called, Obeys, Played, Users, Backs, FlagsOf, NoReplyAfterFree, Lists.CallbackList.Valid;
      for i := 0 to |actions|
        invariant Queued() && Alive() && inCallback && EnvKept() && fresh(replies.repr - old(replies.repr))
        invariant Grew(old(h), h, old(disconnecting || freeing))
        invariant calls == old(calls) && tape == old(tape) && Unasked()
        invariant Backs(script) == old(Backs(script)) + actions[..i]
      {
        DeedStep(script, ByCallback(actions[i]));
        assert actions[..i] + [actions[i]] == actions[..i + 1];
        Act(actions[i]);
      }
      assert actions[..|actions|] == actions;
    }

    // Call the function of a consumed entry; its reply is the one just logged.
    method RunCallback(cb: Callback, ghost reply: Option<Reply>)
      requires Queued() && Alive() && !inCallback
      requires Called(h.log) == calls + if cb.fn then [Call(cb.id, reply)] else []
      requires Played(program, script, |calls|, tape)
      requires NoReplyAfterFree(program, calls) && (reply.Some? ==> !freeing)
      modifies this, replies, replies.repr
      ensures Queued() && Alive() && Tracked() && EnvKept() && Unasked() && fresh(replies.repr - old(replies.repr))
      ensures Grew(old(h), h, old(disconnecting || freeing))
      ensures |tape| <= |old(tape)| && (h != old(h) ==> |tape| < |old(tape)|)
      decreases 3
    {
      hide Sound, Called, Obeys, Played, Users, Backs, FlagsOf, NoReplyAfterFree, Lists.CallbackList.Valid;
      if cb.fn {
        if reply.Some? {
          NoFreeYet();
        }
        CallAfterFree(program, calls, Call(cb.id, reply));
        inCallback := true;
        calls := calls + [Call(cb.id, reply)];
        ghost var was, before := tape, script;
        if tape != [] {
          var actions := tape[0];
          tape := tape[1..];
          ActAll(actions);
        } else {
          assert Backs(before) + [] == Backs(before);
        }
        PlayedNext(program, before, |old(calls)|, was, script);
        inCallback := false;
      }
    }

    lemma NoFreeYet()
      requires Queued() && Played(program, script, |calls|, tape) && !freeing
      ensures forall j :: 0 <= j < |calls| && j < |program| ==> Free !in program[j]
    {
      hide Sound, Obeys, Played, FlagsOf, Lists.CallbackList.Valid;
      FlagsTell(manual, script);
      NoneFreed(program, script, |calls|, tape);
    }

    // Take the oldest callback from the queue and log what it is taken for.
    method ShiftFor(ghost reply: Option<Reply>) returns (target: Option<Callback>)
      requires Queued() && Tracked() && !aborted
      requires if reply.Some? then |h.got| == h.answered + 1 == |h.log| + 1 && reply.value == h.got[h.answered]
               else Settled()
      modifies this`h, replies
      ensures Queued() && fresh(replies.repr - old(replies.repr))
      ensures match target
              case None => h == old(h) && old(replies.contents) == [] == replies.contents
              case Some(cb) =>
                && old(replies.contents) == [cb] + replies.contents
                && h == old(h).(log := old(h).log + [Entry(cb, reply)],
                                answered := old(h).answered + if reply.Some? then 1 else 0)
                && Called(h.log) == calls + if cb.fn then [Call(cb.id, reply)] else []
    {
      hide Sound, Called, Obeys, Played, Users, Backs, FlagsOf, NoReplyAfterFree, Lists.CallbackList.Valid;
      target := replies.Shift();
      if target.Some? {
        CalledAppend(h.log, Entry(target.value, reply));
        SoundConsume(h, target.value, replies.contents, reply);
        h := h.(log := h.log + [Entry(target.value, reply)],
                answered := h.answered + if reply.Some? then 1 else 0);
      }
    }

    // --- teardown ---

    // Run the pending callbacks without a reply, then free the context.
    method FreeNow()
      requires Queued() && Tracked() && Alive() && !inCallback && Settled()
      requires disconnecting || freeing || replies.contents == []
      modifies this, replies, replies.repr
      ensures Queued() && Tracked() && EnvKept() && Unasked() && fresh(replies.repr - old(replies.repr))
      ensures freed && !aborted && replies.contents == []
      ensures h == old(h).(log := h.log)
      ensures old(replies.contents) == [] ==> h == old(h) && obuf == old(obuf) && script == old(script)
      decreases 4
    {
      hide Sound, Called, Obeys, Played, Users, Backs, FlagsOf, NoReplyAfterFree, Lists.CallbackList.Valid;
      var more := true;
      while more
        invariant Queued() && Tracked() && Alive() && EnvKept() && Unasked()
        invariant fresh(replies.repr - old(replies.repr))
        invariant h == old(h).(log := h.log)
        invariant old(replies.contents) == [] ==> h == old(h) && obuf == old(obuf) && script == old(script)
        invariant disconnecting || freeing || replies.contents == []
        invariant old(replies.contents) == [] || !more ==> replies.contents == []
        decreases more, |h.accepted| - |h.log|
      {
        SoundBound(h, replies.contents);
        var cb := ShiftFor(None);
        if cb.None? {
          more := false;
        } else {
          RunCallback(cb.value, None);
        }
      }
      freed := true;
    }

    method AsyncFree()
      requires Queued() && Alive() && (!inCallback ==> Tracked() && Settled())
      modifies this, replies, replies.repr
      ensures Queued() && EnvKept() && freeing && !aborted && fresh(replies.repr - old(replies.repr))
      ensures h == old(h).(log := h.log)
      ensures old(inCallback) ==>
                h == old(h) && !freed && calls == old(calls) && tape == old(tape)
                && replies.contents == old(replies.contents) && script == old(script) + [ByCallback(Free)]
      ensures !old(inCallback) ==> Tracked() && freed && replies.contents == []
      ensures !old(inCallback) ==> old(script) <= script && Users(script) == old(Users(script)) + [Free]
      decreases if inCallback then 1 else 6
    {
      hide Sound, Called, Obeys, Played, Users, Backs, FlagsOf, NoReplyAfterFree, Lists.CallbackList.Valid;
      ObeysClosing(script, h.accepted, appended, disconnecting || freeing, Mine(Free));
      DeedStep(script, Mine(Free));
      PlayedSame(program, script, |calls|, tape, script + [ByUser(Free)]);
      FlagStep(manual, script, Mine(Free));
      script := script + [Mine(Free)];
      freeing := true;
      if !inCallback {
        FreeNow();
      }
    }

    // Tear the connection down. Without an error no callback may be pending.
    method DisconnectNow()
      requires Queued() && Tracked() && Alive() && !inCallback && Settled()
      modifies this, replies, replies.repr
      ensures Queued() && Tracked() && EnvKept() && Unasked() && fresh(replies.repr - old(replies.repr))
      ensures aborted <==> err == 0 && old(replies.contents) != []
      ensures if aborted then !freed && h == old(h)
              else if old(noAutoFree) then !freed && h == old(h) && replies.contents == old(replies.contents)
              else freed && replies.contents == [] && h == old(h).(log := h.log)
      ensures old(replies.contents) == [] ==> h == old(h)
      ensures err != 0 ==> disconnecting && (freed <==> !noAutoFree)
      ensures err == 0 && !aborted ==> (freed <==> !noAutoFree) && script == old(script) && obuf == old(obuf)
      ensures !freed && !aborted ==> freeing == old(freeing) && noAutoFree == old(noAutoFree)
      decreases 5
    {
      hide Sound, Called, Obeys, Played, Users, Backs, FlagsOf, NoReplyAfterFree, Lists.CallbackList.Valid;
      if err == 0 {
        var cb := replies.Shift();
        if cb.Some? {
          aborted := true;
          return;
        }
      } else {
        ObeysClosing(script, h.accepted, appended, disconnecting || freeing, Shut);
        DeedStep(script, Shut);
        PlayedSame(program, script, |calls|, tape, script + [Shut]);
        FlagStep(manual, script, Shut);
        script := script + [Shut];
        disconnecting := true;
      }
      if !noAutoFree {
        FreeNow();
      }
    }

    method AsyncDisconnect()
      requires Queued() && Alive() && (!inCallback ==> Tracked() && Settled())
      modifies this, replies, replies.repr
      ensures Queued() && EnvKept() && disconnecting && !aborted && h == old(h)
      ensures fresh(replies.repr - old(replies.repr))
      ensures replies.contents == old(replies.contents)
      ensures old(inCallback) ==> !noAutoFree && !freed && calls == old(calls) && tape == old(tape)
                                  && script == old(script) + [ByCallback(Disconnect)]
      ensures !old(inCallback) ==> Tracked() && (freed <==> replies.contents == [])
      ensures !noAutoFree && (!freed ==> freeing == old(freeing))
      ensures !old(inCallback) ==> old(script) <= script && Users(script) == old(Users(script)) + [Disconnect]
      decreases if inCallback then 1 else 7
    {
      hide Sound, Called, Obeys, Played, Users, Backs, FlagsOf, NoReplyAfterFree, Lists.CallbackList.Valid;
      replies.HeadTells();
      ObeysClosing(script, h.accepted, appended, disconnecting || freeing, Mine(Disconnect));
      DeedStep(script, Mine(Disconnect));
      PlayedSame(program, script, |calls|, tape, script + [ByUser(Disconnect)]);
      FlagStep(manual, script, Mine(Disconnect));
      script := script + [Mine(Disconnect)];
      disconnecting := true;
      noAutoFree := false;
      if !inCallback && replies.head == null {
        DisconnectNow();
      }
    }

    // --- events ---

    // Take the next reply from the reader, if a complete one has arrived.
    method NextReply() returns (ok: bool, out: Readers.ReplyObject?, ghost t: Reply)
      requires Parsed() && reader.err.None?
      modifies this`h, reader, reader.rstack, reader.objs
      ensures Parsed() && fresh(reader.objs - old(reader.objs)) && (ok <==> reader.err.None?)
      ensures reader.pos <= |reader.buf|
      ensures out == null ==> h == old(h) && (ok ==> Drained())
      ensures out != null ==> ok && h == old(h).(got := old(h).got + [t]) && (out.ty == TError <==> t.Error?)
      ensures out != null ==> |reader.Unread()| < |old(reader.Unread())|
    {
      hide Run, Readers.Reader.Levels, Readers.Consistent;
      ghost var st, u := reader.Abs(), reader.Unread();
      ghost var built;
      ok, out, built := reader.GetReply();
      t := Nil;
      if out != null {
        t := built[out];
        ShowsType(out, built);
        h := h.(got := h.got + [t]);
        assert forall more: seq<Reply> :: old(h).got + ([t] + more) == h.got + more;
      } else if ok {
        StuckStaysStuck(reader.env, st, u);
        assert h.got + [] == h.got;
      }
    }

    lemma ShowsType(o: Readers.ReplyObject, forest: Readers.Forest)
      requires o in forest && Readers.Consistent(forest)
      ensures o.ty == TError <==> forest[o].Error?
    {
      assert Readers.Shows(o, forest[o], forest);
    }

    // Hand received bytes to the reader.
    method Receive(chunk: seq<byte>)
      requires Parsed() && reader.err.None?
      modifies this`received, reader`buf
      ensures Parsed() && reader.err.None? && received == old(received) + chunk
    {
      hide Run, Readers.Reader.Levels, Readers.Consistent;
      ghost var st, u := reader.Abs(), reader.Unread();
      RunSplits(reader.env, INITIAL, received, chunk);
      RunSplits(reader.env, st, u, chunk);
      var ok := reader.Feed(chunk);
      received := received + chunk;
      assert forall a: seq<Reply>, b: seq<Reply>, c: seq<Reply> :: (a + b) + c == a + (b + c);
    }

    // The state between two replies.
    ghost predicate Reading()
      reads this, replies, replies.repr, reader, reader.rstack, reader.objs
    {
      && Queued() && Tracked() && Parsed() && Alive() && !inCallback
      && err == 0 && CaughtUp() && reader.err.None? && !freeing && connected
    }

    // The state when the handling of replies ends.
    ghost predicate Ended()
      reads this, replies, replies.repr, reader, reader.rstack, reader.objs
    {
      && Queued() && Tracked() && Parsed() && !inCallback
      && (aborted <==> Over(h))
      && (!aborted ==>
            (freed <==> if err != 0 then !noAutoFree
                        else freeing || (disconnecting && obuf == [] && replies.contents == [])))
      && (Alive() ==> !freeing) && Explained()
      && (Alive() && err == 0 ==> CaughtUp() && Drained() && reader.err.None?)
      && (Alive() && |h.got| > h.answered ==> disconnecting && replies.contents == [])
      && (freed ==> !aborted && replies.contents == [])
    }

    lemma EndedIsValid()
      requires Ended() && !blocked
      ensures Valid()
    {
      hide Sound, Called, Obeys, Played, FlagsOf, NoReplyAfterFree, Reads, Over, Run;
      hide Lists.CallbackList.Valid, Readers.Reader.Valid;
    }

    // What the view says of the end of a read.
    lemma EndedTells()
      requires Ended()
      ensures Now().aborted <==> Over(Now().h)
      ensures !aborted ==> (freed <==> if err != 0 then !Marked(Now()).manual else Due(Now()))
    {
      hide Sound, Called, Obeys, Played, FlagsOf, NoReplyAfterFree, Reads, Over, Run, Unsent;
      hide Lists.CallbackList.Valid, Readers.Reader.Valid;
      if !aborted {
        ViewTells();
      }
    }

    // Give a reply to the oldest pending callback.
    method HandleReply(reply: Readers.ReplyObject, ghost t: Reply) returns (stop: bool)
      requires Queued() && Tracked() && Parsed() && Alive() && !inCallback && err == 0 && reader.err.None?
      requires h.got != [] && h.answered == |h.log| == |h.got| - 1 && t == h.got[h.answered] && !freeing
      requires connected
      requires reply.ty == TError <==> t.Error?
      modifies this, replies, replies.repr
      ensures fresh(replies.repr - old(replies.repr))
      ensures if stop then Ended() else Reading()
      ensures Kept()
    {
      hide Sound, Called, Obeys, Played, Users, Backs, FlagsOf, NoReplyAfterFree, Run, Reads;
      hide Lists.CallbackList.Valid, Readers.Reader.Valid;
      hide Ended, Reading;
      var cb := ShiftFor(Some(t));
      if cb.None? {
        Surplus(reply, t);
        stop := true;
      } else {
        stop := Answer(cb.value, t);
      }
    }

    // A reply without a callback: an error closes the connection, anything else is not expected.
    method Surplus(reply: Readers.ReplyObject, ghost t: Reply)
      requires Queued() && Tracked() && Parsed() && Alive() && !inCallback && err == 0 && reader.err.None?
      requires replies.contents == [] && |h.got| == h.answered + 1 == |h.log| + 1 && t == h.got[h.answered]
      requires !freeing && connected
      requires reply.ty == TError <==> t.Error?
      modifies this, replies, replies.repr
      ensures fresh(replies.repr - old(replies.repr))
      ensures Ended() && Kept()
    {
      hide Sound, Called, Obeys, Played, Users, Backs, FlagsOf, NoReplyAfterFree, Run, Reads;
      hide Lists.CallbackList.Valid, Readers.Reader.Valid;
      SoundBound(h, replies.contents);
      if reply.ty == TError {
        err := ERR_OTHER;
        DisconnectNow();
      } else {
        aborted := true;
      }
    }

    // Run the callback a reply was taken for; it may have freed the context.
    method Answer(cb: Callback, ghost t: Reply) returns (stop: bool)
      requires Queued() && Parsed() && Alive() && !inCallback && err == 0 && reader.err.None? && CaughtUp()
      requires Called(h.log) == calls + if cb.fn then [Call(cb.id, Some(t))] else []
      requires Played(program, script, |calls|, tape) && NoReplyAfterFree(program, calls) && !freeing
      requires connected
      modifies this, replies, replies.repr
      ensures fresh(replies.repr - old(replies.repr))
      ensures if stop then Ended() else Reading()
      ensures Kept()
    {
      hide Sound, Called, Obeys, Played, Users, Backs, FlagsOf, NoReplyAfterFree, Run, Reads;
      hide Lists.CallbackList.Valid, Readers.Reader.Valid;
      SoundBound(h, replies.contents);
      stop := false;
      if cb.fn {
        RunCallback(cb, Some(t));
        if freeing {
          FreeNow();
          stop := true;
        }
      } else {
        assert calls + [] == calls;
      }
    }

    // There is no further reply: the reader failed, or it waits for more bytes. In the
    // latter case a requested disconnect is due once everything is sent and answered.
    method NoReply(ok: bool)
      requires Queued() && Tracked() && Parsed() && Alive() && !inCallback
      requires err == 0 && CaughtUp() && (ok <==> reader.err.None?) && (ok ==> Drained()) && !freeing && connected
      modifies this, replies, replies.repr
      ensures fresh(replies.repr - old(replies.repr))
      ensures Ended() && Kept()
    {
      hide Sound, Called, Obeys, Played, Users, Backs, FlagsOf, NoReplyAfterFree, Run, Reads;
      hide Lists.CallbackList.Valid, Readers.Reader.Valid;
      SoundBound(h, replies.contents);
      replies.HeadTells();
      if !ok {
        err := if reader.err == Some(OutOfMemory) then ERR_OOM else ERR_PROTOCOL;
        DisconnectNow();
      } else if disconnecting && |obuf| == 0 && replies.head == null {
        DisconnectNow();
      }
    }

    // Run the callbacks of all replies that have arrived.
    method ProcessCallbacks()
      requires Reading()
      modifies this, replies, replies.repr, reader, reader.rstack, reader.objs
      ensures Ended() && Kept()
      ensures fresh(replies.repr - old(replies.repr)) && fresh(reader.objs - old(reader.objs))
    {
      hide Sound, Called, Obeys, Played, Users, Backs, FlagsOf, NoReplyAfterFree, Run, Reads;
      hide Lists.CallbackList.Valid, Readers.Reader.Valid;
      reader.CursorInside();
      var stop := false;
      while !stop
        invariant (if stop then Ended() else Reading()) && reader.pos <= |reader.buf|
        invariant fresh(replies.repr - old(replies.repr)) && fresh(reader.objs - old(reader.objs))
        invariant Kept()
        decreases !stop, |reader.Unread()|
      {
        stop := ProcessReply();
      }
    }

    // One round: the next reply, if a complete one has arrived.
    method ProcessReply() returns (stop: bool)
      requires Reading()
      requires reader.pos <= |reader.buf|
      modifies this, replies, replies.repr, reader, reader.rstack, reader.objs
      ensures reader.pos <= |reader.buf|
      ensures if stop then Ended() else Reading() && |reader.Unread()| < |old(reader.Unread())|
      ensures fresh(replies.repr - old(replies.repr)) && fresh(reader.objs - old(reader.objs))
      ensures Kept()
    {
      hide Sound, Called, Obeys, Played, Users, Backs, FlagsOf, NoReplyAfterFree, Run, Reads;
      hide Lists.CallbackList.Valid, Readers.Reader.Valid;
      var ok, reply;
      ghost var t;
      ok, reply, t := NextReply();
      if reply == null {
        NoReply(ok);
        stop := true;
      } else {
        SoundReceive(old(h), replies.contents, t);
        stop := HandleReply(reply, t);
      }
    }

    // An error tears the connection down.
    method Fail(code: nat)
      requires Valid() && Alive() && code != 0 && (err == 0 || code == err || !connected)
      modifies this, replies, replies.repr
      ensures fresh(replies.repr - old(replies.repr))
      ensures Valid() && Kept() && !aborted && err == code && h.got == old(h.got) && (freed <==> !noAutoFree)
      ensures !freed ==> freeing == old(freeing)
    {
      hide Sound, Called, Obeys, Played, Users, Backs, FlagsOf, NoReplyAfterFree, Run, Reads;
      hide Lists.CallbackList.Valid, Readers.Reader.Valid;
      SoundBound(h, replies.contents);
      err := code;
      DisconnectNow();
    }

    // A write that would block is taken for a failure, but there is no error to be found.
    method Refuse()
      requires Valid() && Alive() && err == 0
      modifies this, replies, replies.repr
      ensures fresh(replies.repr - old(replies.repr))
      ensures Valid() && (aborted <==> old(replies.contents) != []) && err == 0
      ensures !aborted ==> (freed <==> !noAutoFree)
      ensures connected == old(connected) && sent == old(sent) && received == old(received) && Unasked()
      ensures h.got == old(h.got)
    {
      hide Sound, Called, Obeys, Played, Users, Backs, FlagsOf, NoReplyAfterFree, Run, Reads;
      hide Lists.CallbackList.Valid, Readers.Reader.Valid;
      SoundBound(h, replies.contents);
      blocked := replies.contents != [];
      DisconnectNow();
    }

    // The first read or write event finds out whether the connection was made.
    method HandleConnect(outcome: ConnectOutcome) returns (ready: bool)
      requires Valid() && Alive()
      modifies this, replies, replies.repr
      ensures fresh(replies.repr - old(replies.repr))
      ensures Valid() && (ready ==> Alive() && connected) && (ready <==> old(connected) || outcome.Completed?)
      ensures ready ==> Now() == old(Now()).(connected := true) && obuf == old(obuf)
      ensures ready ==> replies.contents == old(replies.contents)
      ensures !ready ==> !connected && Unasked() && sent == old(sent) && NotReady(old(Now()), outcome, Now())
      ensures (blocked <==> old(blocked)) && received == old(received) && !aborted && !Over(h)
    {
      hide Sound, Called, Obeys, Played, Users, Backs, FlagsOf, NoReplyAfterFree, Run, Reads;
      hide Lists.CallbackList.Valid, Readers.Reader.Valid;
      if connected {
        return true;
      }
      match outcome
      case Refused =>
        Fail(ERR_IO);
        ready := false;
      case Completed =>
        connected := true;
        ready := true;
      case InProgress =>
        ready := false;
    }

    method HandleRead(connect: ConnectOutcome, read: ReadOutcome)
      requires Valid() && Alive()
      modifies this, replies, replies.repr, reader, reader.rstack, reader.objs
      ensures fresh(replies.repr - old(replies.repr)) && fresh(reader.objs - old(reader.objs))
      ensures Valid() && (blocked <==> old(blocked))
      ensures Follows(old(Now()), Readable(connect, read), Now())
    {
      hide Valid, Users;
      var ready := HandleConnect(connect);
      if ready {
        ghost var v := Now();
        AsyncRead(read);
        ConnectedRead(old(Now()), v, connect, read, Now());
      }
    }

    // redisAsyncRead
    method AsyncRead(read: ReadOutcome)
      requires Valid() && Alive() && connected
      modifies this, replies, replies.repr, reader, reader.rstack, reader.objs
      ensures fresh(replies.repr - old(replies.repr)) && fresh(reader.objs - old(reader.objs))
      ensures Valid() && (blocked <==> old(blocked))
      ensures Follows(old(Now()), Readable(Completed, read), Now())
    {
      hide Sound, Called, Obeys, Played, Users, Backs, FlagsOf, NoReplyAfterFree, Run, Reads, Due, Over;
      hide Lists.CallbackList.Valid, Readers.Reader.Valid;
      if err != 0 || read.Eof? || read.ReadFailed? {
        Fail(if err != 0 then err else if read.Eof? then ERR_EOF else ERR_IO);
      } else {
        if read.Data? {
          Receive(read.chunk);
        }
        TakeReplies();
      }
    }

    // Handle the replies that have arrived, between two events.
    method TakeReplies()
      requires Reading() && !blocked
      modifies this, replies, replies.repr, reader, reader.rstack, reader.objs
      ensures fresh(replies.repr - old(replies.repr)) && fresh(reader.objs - old(reader.objs))
      ensures Valid() && Kept() && (aborted <==> Over(h)) && (Alive() ==> !freeing)
      ensures !aborted ==> (freed <==> if err != 0 then !Marked(Now()).manual else Due(Now()))
    {
      hide Reading, Valid, Over, Due, Queued, Tracked, Parsed, CaughtUp, Drained;
      ProcessCallbacks();
      EndedIsValid();
      EndedTells();
    }

    // A write takes a prefix of the output buffer, or fails. A write that would block is
    // reported as a failure without an error code, and tears the connection down.
    method HandleWrite(connect: ConnectOutcome, write: WriteOutcome)
      requires Valid() && Alive()
      modifies this, replies, replies.repr
      ensures fresh(replies.repr - old(replies.repr))
      ensures Valid()
      ensures aborted <==> && Ready(old(Now()), connect) && old(err) == 0
                           && old(obuf) != [] && write.WouldBlock? && old(replies.contents) != []
      ensures Follows(old(Now()), Writable(connect, write), Now())
    {
      hide Valid, Users, Unsent;
      var ready := HandleConnect(connect);
      if ready {
        ghost var v := Now();
        AsyncWrite(write);
        ConnectedWrite(old(Now()), v, connect, write, Now());
      }
    }

    // redisAsyncWrite, with redisBufferWrite
    method AsyncWrite(write: WriteOutcome)
      requires Valid() && Alive() && connected
      modifies this, replies, replies.repr
      ensures fresh(replies.repr - old(replies.repr))
      ensures Valid()
      ensures aborted <==> old(err) == 0 && old(obuf) != [] && write.WouldBlock? && old(replies.contents) != []
      ensures Follows(old(Now()), Writable(Completed, write), Now())
    {
      hide Sound, Called, Obeys, Played, Users, Backs, FlagsOf, NoReplyAfterFree, Unsent, Run, Reads;
      hide Lists.CallbackList.Valid, Readers.Reader.Valid;
      ViewTells();
      if err != 0 {
        Fail(err);
      } else if |obuf| > 0 {
        match write
        case Wrote(n) =>
          var nwritten := if n < |obuf| then n else |obuf|;
          sent := sent + obuf[..nwritten];
          obuf := obuf[nwritten..];
        case WouldBlock =>
          Refuse();
        case WriteFailed =>
          Fail(ERR_IO);
      }
    }

    // A command of the user, outside callbacks.
    method HandleIssue(fn: bool, cmd: Classify.RegularCommand)
      requires Valid() && Alive()
      modifies this, replies, replies.repr
      ensures fresh(replies.repr - old(replies.repr))
      ensures Valid() && Follows(old(Now()), Issue(fn, cmd), Now())
    {
      hide Sound, Called, Obeys, Played, Users, Backs, FlagsOf, NoReplyAfterFree, Unsent, Run, Reads;
      hide Lists.CallbackList.Valid, Readers.Reader.Valid, Classify.KindOf;
      SoundBound(h, replies.contents);
      DeedStep(script, ByUser(Command(fn, cmd)));
      PlayedSame(program, script, |calls|, tape, script + [ByUser(Command(fn, cmd))]);
      var ok := AsyncCommand(fn, cmd);
    }

    // Run the pending callbacks, and those they add, without a reply.
    method DrainUnanswered()
      requires Queued() && Tracked() && Alive() && !inCallback && Settled()
      requires |h.got| > h.answered ==> disconnecting
      modifies this, replies, replies.repr
      ensures Queued() && Tracked() && Alive() && EnvKept() && Unasked() && fresh(replies.repr - old(replies.repr))
      ensures replies.contents == [] && h.answered == old(h.answered) && h.got == old(h.got)
      ensures |h.got| > h.answered ==> h == old(h)
    {
      hide Sound, Called, Obeys, Played, Users, Backs, FlagsOf, NoReplyAfterFree, Lists.CallbackList.Valid;
      var more := true;
      while more
        invariant Queued() && Tracked() && Alive() && EnvKept() && Unasked()
        invariant fresh(replies.repr - old(replies.repr))
        invariant !more || |h.got| > h.answered ==> replies.contents == []
        invariant |h.got| > h.answered ==> h == old(h)
        invariant h.answered == old(h.answered) && h.got == old(h.got)
        decreases |tape|, more, |h.accepted| - |h.log|
      {
        SoundBound(h, replies.contents);
        var cb := ShiftFor(None);
        if cb.None? {
          more := false;
        } else {
          RunCallback(cb.value, None);
        }
      }
    }

    method HandleTimeout()
      requires Valid() && Alive()
      modifies this, replies, replies.repr
      ensures fresh(replies.repr - old(replies.repr))
      ensures Valid() && !aborted && (blocked <==> old(blocked))
      ensures Follows(old(Now()), Timeout, Now())
    {
      hide Sound, Called, Obeys, Played, Users, Backs, FlagsOf, NoReplyAfterFree, Unsent, Run, Reads;
      hide Lists.CallbackList.Valid;
      replies.HeadTells();
      ViewTells();
      if connected && replies.head == null {
        return;
      }
      GiveUp();
      ViewTells();
    }

    // Every pending callback learns of the timeout; then the connection goes.
    method GiveUp()
      requires Valid() && Alive()
      modifies this, replies, replies.repr
      ensures fresh(replies.repr - old(replies.repr))
      ensures Valid() && !aborted && Kept() && h.got == old(h.got) && replies.contents == []
      ensures freed <==> !noAutoFree
      ensures err == if old(err) == 0 then ERR_TIMEOUT else old(err)
    {
      hide Sound, Called, Obeys, Played, Users, Backs, FlagsOf, NoReplyAfterFree, Run, Reads;
      hide Lists.CallbackList.Valid, Readers.Reader.Valid;
      SoundBound(h, replies.contents);
      if err == 0 {
        err := ERR_TIMEOUT;
      }
      DrainUnanswered();
      DisconnectNow();
    }

    // The replies taken, and what comes after them, in the grammar's words.
    lemma GrammarTells()
      requires Parsed()
      ensures var (replies, fault) := ParseAll(reader.env, received);
              && h.got <= replies
              && (Drained() ==> replies == h.got && fault == None)
              && (reader.err.Some? ==> replies == h.got && fault == reader.err)
    {
      hide Run, ParseAll, Readers.Reader.Levels, Readers.Consistent;
      MachineRefinesGrammar(reader.env, received);
      assert h.got + [] == h.got;
    }

    lemma AppendedIs()
      requires Queued()
      ensures sent + obuf == BytesOf(Accepted(script))
    {
      hide Sound, Lists.CallbackList.Valid;
    }

    lemma IsHonest()
      requires Queued() && Tracked()
      ensures Honest(Now(), program)
    {
      hide Sound, Called, Lists.CallbackList.Valid;
    }

    // What the view says of the buffer and of the queue.
    lemma ViewTells()
      requires Queued() && !aborted
      ensures obuf == Unsent(Now()) && |replies.contents| == Pending(Now())
    {
      hide Lists.CallbackList.Valid;
      SoundBound(h, replies.contents);
      assert appended[|sent|..] == obuf;
    }
  }

  // --- whole runs ---

  // The user's deed of an event, and those of a run.
  function DeedOf(e: Event): (a: seq<Action>) {
    match e
    case Issue(fn, cmd) => [Command(fn, cmd)]
    case UserDisconnect => [Disconnect]
    case UserFree => [Free]
    case _ => []
  }

  function Asked(events: seq<Event>): (a: seq<Action>) {
    if events == [] then [] else Asked(events[..|events| - 1]) + DeedOf(events[|events| - 1])
  }

  // The bytes an event delivers to a context in this state.
  function Delivered(v: View, e: Event): (b: seq<byte>) {
    if e.Readable? && Ready(v, e.rconn) && v.err == 0 && e.read.Data? then e.read.chunk else []
  }

  ghost function Chunks(views: seq<View>, events: seq<Event>): (b: seq<byte>)
    requires |events| <= |views|
  {
    if events == [] then []
    else Chunks(views, events[..|events| - 1]) + Delivered(views[|events| - 1], events[|events| - 1])
  }

  // Each event leads from one view to the next, and the context is alive until the last.
  ghost predicate Recorded(views: seq<View>, events: seq<Event>) {
    && |views| == |events| + 1
    && forall i :: 0 <= i < |events| ==>
         Follows(views[i], events[i], views[i + 1]) && !views[i].freed && !views[i].aborted
  }

  // A read without an error, after which somebody has asked for the context to be freed, ends with that;
  // and so does one after which a disconnect was asked for and nothing is left to send or to answer.
  lemma ReadCarriesOut(v: View, e: Event, w: View)
    requires Follows(v, e, w) && e.Readable? && Ready(v, e.rconn) && v.err == 0 && !w.aborted
    ensures Wanted(w.script, Free) ==> w.freed
    ensures w.err == 0 && Wanted(w.script, Disconnect) && Unsent(w) == [] && Pending(w) == 0 ==> w.freed
    ensures w.err == 0 && w.freed ==>
              Wanted(w.script, Free)
              || ((Wanted(w.script, Disconnect) || Shut in w.script) && Unsent(w) == [] && Pending(w) == 0)
  {
    hide Users, Unsent, Wanted, FlagsOf, Over;
    FlagsTell(w.manual, w.script);
  }

  // The event fails an assertion, leaving this history.
  ghost predicate FailsIn(v: View, e: Event, h: History) {
    Blocks(v, e) || (e.Readable? && Over(h))
  }

  // No other event than these fails an assertion, and these do.
  lemma FailsExactly(v: View, e: Event, w: View)
    requires Follows(v, e, w) && !v.aborted
    ensures w.aborted <==> FailsIn(v, e, w.h)
  {
    hide Users, Unsent, Over;
  }

  lemma FollowsTells(v: View, e: Event, w: View)
    requires Follows(v, e, w)
    ensures v.script <= w.script && Users(w.script) == Users(v.script) + DeedOf(e)
    ensures w.received == v.received + Delivered(v, e)
  {
    hide Users, Unsent;
    if e.Issue? {
      DeedStep(v.script, ByUser(Command(e.fn, e.cmd)));
    }
    assert Users(v.script) + [] == Users(v.script) && v.received + [] == v.received;
  }

  // Over a run the user's deeds are those of the events, and the bytes received are those delivered
  // while the connection was made and without an error.
  lemma {:induction false} RecordTells(views: seq<View>, events: seq<Event>)
    requires Recorded(views, events)
    ensures var first, last := views[0], views[|views| - 1];
            && first.script <= last.script && Users(last.script) == Users(first.script) + Asked(events)
            && last.received == first.received + Chunks(views, events)
  {
    hide Users, Follows, Delivered;
    if events == [] {
      assert Users(views[0].script) + [] == Users(views[0].script) && views[0].received + [] == views[0].received;
    } else {
      var n := |events| - 1;
      var v, e := views[n], events[n];
      assert views[..n + 1][n] == v && Follows(v, e, views[n + 1]);
      RecordTells(views[..n + 1], events[..n]);
      ChunksOfPrefix(views, events[..n]);
      FollowsTells(v, e, views[n + 1]);
      assert views[0].received + Chunks(views, events[..n]) + Delivered(v, e)
             == views[0].received + (Chunks(views, events[..n]) + Delivered(v, e));
      assert Users(views[0].script) + Asked(events[..n]) + DeedOf(e)
             == Users(views[0].script) + (Asked(events[..n]) + DeedOf(e));
    }
  }

  lemma {:induction false} ChunksOfPrefix(views: seq<View>, events: seq<Event>)
    requires |events| < |views|
    ensures Chunks(views[..|views| - 1], events) == Chunks(views, events)
  {
    if events != [] {
      ChunksOfPrefix(views, events[..|events| - 1]);
    }
  }

  // The commands registered are those the script accepts, what is sent is the beginning of their bytes,
  // and the deeds of callbacks are what the program has for the calls made.
  ghost predicate Honest(v: View, program: seq<seq<Action>>) {
    var rs, n := Accepted(v.script), |Called(v.h.log)|;
    && |v.h.accepted| == |rs| && (forall i :: 0 <= i < |rs| ==> v.h.accepted[i].fn == rs[i].fn)
    && v.sent <= BytesOf(rs) && NoReplyAfterFree(program, Called(v.h.log))
    && Backs(v.script) == Flatten(program[..if n < |program| then n else |program|])
  }

  // Any sequence of calls and socket events, until the context is freed or the program
  // stops on a failed assertion; the views record what each event did.
  method Drive(ac: AsyncContext, events: seq<Event>) returns (ghost views: seq<View>)
    requires ac.Valid()
    modifies ac, ac.replies, ac.replies.repr, ac.reader, ac.reader.rstack, ac.reader.objs
    ensures ac.Valid()
    // Every event is handled in turn, unless the context has ended.
    ensures 1 <= |views| <= |events| + 1 && Recorded(views, events[..|views| - 1])
    ensures views[0] == old(ac.Now()) && views[|views| - 1] == ac.Now()
    ensures |views| <= |events| ==> ac.freed || ac.aborted
    ensures forall v :: v in views ==> Honest(v, ac.program)
    // Every byte accepted for sending is sent or still buffered, in order.
    ensures ac.sent + ac.obuf == BytesOf(Accepted(ac.script))
    // The replies taken are the first ones the grammar finds in the received bytes.
    ensures ac.h.got <= ParseAll(ac.reader.env, ac.received).0
    // While there is no error, they are all of them, and each has been given to its command.
    ensures ac.Alive() && ac.err == 0 ==>
              && ParseAll(ac.reader.env, ac.received) == (ac.h.got, None)
              && ac.h.answered == |ac.h.log| == |ac.h.got|
    // What the reader fails on is what the grammar fails on, and the error says so; the other way to an
    // error from a reply is one that is an error and that nobody asked for.
    ensures ac.reader.err.Some? ==>
              && ParseAll(ac.reader.env, ac.received) == (ac.h.got, ac.reader.err)
              && ac.err == if ac.reader.err.value == OutOfMemory then ERR_OOM else ERR_PROTOCOL
    ensures !ac.aborted && |ac.h.got| > ac.h.answered ==> ac.err == ERR_OTHER && ac.h.got[ac.h.answered].Error?
    // An assertion fails exactly when the last event handled is a write that blocks while
    // callbacks are pending, or a read after which a reply, not an error, is one nobody asked for.
    ensures old(!ac.aborted) ==>
              (ac.aborted <==> |views| > 1 && FailsIn(views[|views| - 2], events[|views| - 2], ac.h))
    // A user function that asks for the context to be freed is the last one to get a reply. The context
    // goes, unless it was made to outlive its connection and an error had ended that.
    ensures NoReplyAfterFree(ac.program, ac.calls)
    ensures Wanted(ac.script, Free) && !ac.aborted ==>
              ac.freed || (ac.manual && !Wanted(ac.script, Disconnect) && ac.err != 0)
    // Once the context is freed every accepted command was called back exactly once, in
    // order, the k-th with the k-th reply or with none.
    ensures ac.freed ==>
              && InOrder(ac.calls)
              && (forall i :: 0 <= i < |ac.h.accepted| ==>
                    TimesCalled(ac.calls, i) == if ac.h.accepted[i].fn then 1 else 0)
              && ac.h.answered <= |ac.h.got|
              && forall c :: c in ac.calls ==> c.reply == ReplyFor(ac.h, c.id)
  {
    hide Sound, Called, Obeys, Played, Run, InOrder, TimesCalled, ParseAll, Follows, Honest, Accepted, BytesOf, FailsIn;
    hide FlagsOf, NoReplyAfterFree, Wanted;
    hide Lists.CallbackList.Valid, Readers.Reader.Valid;
    var i := 0;
    views := [ac.Now()];
    ac.IsHonest();
    while i < |events| && !ac.freed && !ac.aborted
      invariant ac.Valid() && i <= |events|
      invariant fresh(ac.replies.repr - old(ac.replies.repr)) && fresh(ac.reader.objs - old(ac.reader.objs))
      invariant |views| == i + 1 && views[0] == old(ac.Now()) && views[i] == ac.Now()
      invariant Recorded(views, events[..i])
      invariant forall v :: v in views ==> Honest(v, ac.program)
    {
      Handle(ac, events[i]);
      ac.IsHonest();
      views := views + [ac.Now()];
      i := i + 1;
    }
    if i > 0 {
      assert events[..i][i - 1] == events[i - 1];
      FailsExactly(views[i - 1], events[i - 1], views[i]);
    }
    ac.GrammarTells();
    FlagsTell(ac.manual, ac.script);
    ac.AppendedIs();
    if ac.freed {
      SoundBound(ac.h, []);
      ExactlyOnceInOrder(ac.h);
    }
  }

  // One command, and a first write that would block: the context ends in a failed assertion.
  method WouldBlockAborts(env: Env) returns (ac: AsyncContext)
    ensures ac.aborted && ac.h.got == []
  {
    hide Recorded, Honest, Follows, AsyncContext.Valid, ParseAll, InOrder, TimesCalled;
    ac := new AsyncContext(env, false, []);
    var cmd := Classify.Ping();
    ghost var views := Drive(ac, [Issue(true, cmd), Writable(Completed, WouldBlock)]);
    BlockedRun(views, cmd, ac.program);
  }

  lemma BlockedRun(views: seq<View>, cmd: Classify.RegularCommand, program: seq<seq<Action>>)
    requires 1 <= |views| <= 3 && cmd != []
    requires Recorded(views, [Issue(true, cmd), Writable(Completed, WouldBlock)][..|views| - 1])
    requires views[0] == View(false, 0, [], [], [], History([], [], 0, []), false, false, false)
    requires |views| <= 2 ==> views[|views| - 1].freed || views[|views| - 1].aborted
    requires forall v :: v in views ==> Honest(v, program)
    ensures views[|views| - 1].aborted && views[|views| - 1].h.got == []
  {
    hide Users, Called, Backs, Flatten, Accepted, BytesOf;
    var events := [Issue(true, cmd), Writable(Completed, WouldBlock)];
    if |views| >= 2 {
      assert events[..|views| - 1][0] == events[0];
      var v := views[1];
      assert v.script == [ByUser(Command(true, cmd))] && v in views;
      OneCommand(cmd);
      assert Unsent(v) == cmd;
      if |views| == 3 {
        assert events[..2][1] == events[1];
      }
    }
  }

  // A context made to outlive its connection, one command, and a timeout whose callback asks for the context
  // to be freed: it is not, although nothing is left to be called back.
  method FreeIsForgotten(env: Env) returns (ac: AsyncContext)
    ensures Wanted(ac.script, Free) && !ac.freed && !ac.aborted && ac.replies.contents == []
  {
    hide Recorded, Honest, Follows, ParseAll, InOrder, TimesCalled, Wanted, NoReplyAfterFree, Users, Backs, Called;
    hide Sound, Obeys, Played, FlagsOf, AsyncContext.Reads, Run, Lists.CallbackList.Valid, Readers.Reader.Valid;
    ac := new AsyncContext(env, true, [[Free]]);
    var cmd := Classify.Ping();
    ghost var views := Drive(ac, [Issue(true, cmd), Timeout]);
    TimedOut(views, cmd, ac.program);
    ac.ViewTells();
    CalledOnce(ac.h, ac.program, ac.script, ac.tape);
    NotToldToGo(ac.script, cmd);
  }

  lemma TimedOut(views: seq<View>, cmd: Classify.RegularCommand, program: seq<seq<Action>>)
    requires 1 <= |views| <= 3 && Recorded(views, [Issue(true, cmd), Timeout][..|views| - 1])
    requires views[0] == View(false, 0, [], [], [], History([], [], 0, []), false, false, true)
    requires |views| <= 2 ==> views[|views| - 1].freed || views[|views| - 1].aborted
    requires forall v :: v in views ==> Honest(v, program)
    ensures var w := views[|views| - 1];
            && !w.aborted && Pending(w) == 0 && Users(w.script) == [Command(true, cmd)]
            && (w.freed <==> !Marked(w).manual) && w.manual
            && |w.h.accepted| > 0 && w.h.accepted[0].fn
  {
    hide Users, Called, Backs, Flatten, Accepted, BytesOf, NoReplyAfterFree, FlagsOf;
    var events := [Issue(true, cmd), Timeout];
    assert |views| >= 2;
    assert events[..|views| - 1][0] == events[0];
    var v := views[1];
    assert v.script == [ByUser(Command(true, cmd))];
    DeedStep([], ByUser(Command(true, cmd)));
    NoDeeds();
    assert |views| == 3 && events[..2][1] == events[1];
    assert v in views && views[2] in views;
    FirstAccepted(cmd, views[2].script);
  }

  lemma NoDeeds()
    ensures Users([]) == [] && Backs([]) == []
  {
  }

  lemma {:induction false} FirstAccepted(cmd: Classify.RegularCommand, s: seq<Deed>)
    requires [ByUser(Command(true, cmd))] <= s
    ensures [Request(true, cmd)] <= Accepted(s)
  {
    if |s| == 1 {
      assert s == [ByUser(Command(true, cmd))];
      OneCommand(cmd);
    } else {
      FirstAccepted(cmd, s[..|s| - 1]);
    }
  }

  // The callback of the only command has run, so what it was to do was done.
  lemma CalledOnce(h: History, program: seq<seq<Action>>, script: seq<Deed>, tape: seq<seq<Action>>)
    requires Sound(h, []) && |h.accepted| > 0 && h.accepted[0].fn && program == [[Free]]
    requires Played(program, script, |Called(h.log)|, tape)
    ensures Backs(script) == [Free]
  {
    hide Sound, Called, Backs;
    ExactlyOnceInOrder(h);
    assert Called(h.log) != [];
    assert program[..1] == [[Free]] && [[Free]][..0] == [];
    assert Flatten([[Free]]) == [] + [Free];
  }

  lemma NotToldToGo(s: seq<Deed>, cmd: Classify.RegularCommand)
    requires Users(s) == [Command(true, cmd)] && Backs(s) == [Free]
    ensures Wanted(s, Free) && FlagsOf(true, s).manual
  {
    WantedIs(s, Free);
    WantedIs(s, Disconnect);
    FlagsTell(true, s);
  }

  lemma OneCommand(cmd: Classify.RegularCommand)
    ensures var s := [ByUser(Command(true, cmd))]; Accepted(s) == [Request(true, cmd)] && BytesOf(Accepted(s)) == cmd
  {
    hide Classify.KindOf;
    assert [ByUser(Command(true, cmd))][..0] == [];
    assert BytesOf([Request(true, cmd)]) == [] + cmd;
  }

  method Handle(ac: AsyncContext, event: Event)
    requires ac.Valid() && ac.Alive()
    modifies ac, ac.replies, ac.replies.repr, ac.reader, ac.reader.rstack, ac.reader.objs
    ensures ac.Valid() && Follows(old(ac.Now()), event, ac.Now())
    ensures fresh(ac.replies.repr - old(ac.replies.repr)) && fresh(ac.reader.objs - old(ac.reader.objs))
  {
    hide Sound, Called, Obeys, Played, Users, Backs, FlagsOf, NoReplyAfterFree, Unsent, Run, AsyncContext.Reads;
    hide Lists.CallbackList.Valid, Readers.Reader.Valid, Classify.KindOf;
    SoundBound(ac.h, ac.replies.contents);
    ac.ViewTells();
    match event
    case Issue(fn, cmd) =>
      ac.HandleIssue(fn, cmd);
    case UserDisconnect =>
      ac.AsyncDisconnect();
    case UserFree =>
      ac.AsyncFree();
    case Readable(connect, read) =>
      ac.HandleRead(connect, read);
    case Writable(connect, write) =>
      ac.HandleWrite(connect, write);
    case Timeout =>
      ac.HandleTimeout();
  }

  // Callbacks can only append accepted commands, and none once the connection closes.
  ghost predicate Grew(h0: History, h1: History, closed: bool) {
    h1 == h0.(accepted := h1.accepted) && h0.accepted <= h1.accepted && (closed ==> h1 == h0)
  }
}
