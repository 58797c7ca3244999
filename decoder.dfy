/** The proxy's inbound packet handler. Each incoming buffer is copied and
    handed to the event listeners; the copy is then dropped (the event was
    cancelled), passed on with its original bytes (no listener used a
    wrapper), or rewritten from the wrapper the listeners used last. Tasks
    the listeners scheduled run afterwards, in order. Every exception is
    swallowed and counted; stack traces are printed for the first nine, and
    a single notice, which names the player, replaces them after that. The
    player is a field the proxy assigns after construction: while it is
    unset, building the notice throws, nothing is printed, and that
    exception escapes the handler.

    The event machinery is outside this model: what the listeners leave
    behind is a parameter of each call, an `Event`, or `None` when creating
    or dispatching the event threw. What the handler prints is kept as a
    log of lines. */
module BungeeDecoder {
  import opened Wire
  import opened Buffers

  /** What the wrapper the listeners used last does when asked to write. */
  datatype Rewrite =
    | NoWrapper                    // no listener read the packet through a wrapper
    | Rewritten(body: seq<byte>)   // the wrapper writes these bytes
    | WriteThrows                  // the wrapper throws while writing

  /** A task a listener scheduled to run once the packet is handled. */
  datatype Task = Task(name: nat, throws: bool)

  /** The event as the listeners leave it: the packet id, whether it was
      cancelled, the last-used wrapper, the scheduled tasks, and the reader
      index of the copy. */
  datatype Event = Event(packetId: int32, cancelled: bool, rewrite: Rewrite, postTasks: seq<Task>, readerIndex: nat)

  /** A line the handler prints. */
  datatype Line = StackTrace | TooManyExceptions

  /** Stack traces are printed while fewer than this many exceptions were caught. */
  const TRACE_LIMIT: int32 := 10

  // ---------------------------------------------------------------------
  // What one packet does

  /** The bytes passed on for a packet whose readable bytes are `input`:
      nothing when the event could not be dispatched, was cancelled, or its
      wrapper threw; the input itself without a wrapper; otherwise the
      packet id as a VarInt followed by what the wrapper writes. */
  function Forwarded(input: seq<byte>, ev: Option<Event>): Option<seq<byte>> {
    match ev
    case None => None
    case Some(e) =>
      if e.cancelled then None
      else
        match e.rewrite
        case NoWrapper => Some(input)
        case Rewritten(body) => Some(EncodeVarInt(e.packetId) + body)
        case WriteThrows => None
  }

  /** Whether handling the packet throws somewhere. */
  predicate Throws(ev: Option<Event>) {
    match ev
    case None => true
    case Some(e) =>
      (!e.cancelled && e.rewrite.WriteThrows?)
      || exists i | 0 <= i < |e.postTasks| :: e.postTasks[i].throws
  }

  /** The post tasks that get to run: none when the event was not
      dispatched or the rewrite threw, otherwise those of `TasksRun`. */
  function PostTasksRun(ev: Option<Event>): seq<nat> {
    match ev
    case None => []
    case Some(e) => if !e.cancelled && e.rewrite.WriteThrows? then [] else TasksRun(e.postTasks)
  }

  /** The names of the tasks, in list order. */
  function Names(tasks: seq<Task>): (r: seq<nat>)
    ensures |r| == |tasks|
    ensures forall i | 0 <= i < |tasks| :: r[i] == tasks[i].name
  {
    seq(|tasks|, i requires 0 <= i < |tasks| => tasks[i].name)
  }

  /** The tasks run one after another; a task that throws ends the run. */
  function TasksRun(tasks: seq<Task>): seq<nat> {
    if tasks == [] then []
    else if tasks[0].throws then [tasks[0].name]
    else [tasks[0].name] + TasksRun(tasks[1..])
  }

  /** The tasks run are the first tasks of the list, in order; every one but
      the last run finished; all of them run when none throws, and when the
      run stops early its last task threw. */
  lemma {:induction false} TasksRunOrder(tasks: seq<Task>)
    ensures |TasksRun(tasks)| <= |tasks|
    ensures TasksRun(tasks) == Names(tasks[..|TasksRun(tasks)|])
    ensures forall j | 0 <= j < |TasksRun(tasks)| - 1 :: !tasks[j].throws
    ensures (forall j | 0 <= j < |tasks| :: !tasks[j].throws) ==> TasksRun(tasks) == Names(tasks)
    ensures |TasksRun(tasks)| < |tasks| ==> tasks[|TasksRun(tasks)| - 1].throws
  {
    if tasks != [] && !tasks[0].throws {
      var rest := tasks[1..];
      TasksRunOrder(rest);
      var n := |TasksRun(rest)|;
      assert tasks[..n + 1] == [tasks[0]] + rest[..n];
      forall j | 0 <= j < n + 1 - 1
        ensures !tasks[j].throws
      {
        if j > 0 {
          assert tasks[j] == rest[j - 1];
        }
      }
      if forall j | 0 <= j < |tasks| :: !tasks[j].throws {
        forall j | 0 <= j < |rest|
          ensures !rest[j].throws
        {
          assert rest[j] == tasks[j + 1];
        }
        assert tasks == [tasks[0]] + rest;
      }
    }
  }

  /** Running the tasks after `k` that did not throw: the next task runs. */
  lemma {:induction false} TasksRunStep(tasks: seq<Task>, k: nat)
    requires k < |tasks|
    requires forall j | 0 <= j < k :: !tasks[j].throws
    ensures TasksRun(tasks) ==
      if tasks[k].throws then Names(tasks[..k + 1]) else Names(tasks[..k + 1]) + TasksRun(tasks[k + 1..])
    decreases k
  {
    var rest := tasks[1..];
    if k > 0 {
      assert !tasks[0].throws;
      assert forall j | 0 <= j < k - 1 :: rest[j] == tasks[j + 1];
      TasksRunStep(rest, k - 1);
      assert rest[k..] == tasks[k + 1..];
      assert Names(tasks[..k + 1]) == [tasks[0].name] + Names(rest[..k]);
    } else {
      assert Names(tasks[..1]) == [tasks[0].name];
      assert tasks[1..] == rest;
    }
  }

  /** A rewritten packet starts with its packet id, which reads back, and
      then carries exactly what the wrapper wrote. */
  lemma RewrittenReadsBack(input: seq<byte>, e: Event)
    requires !e.cancelled && e.rewrite.Rewritten?
    ensures Forwarded(input, Some(e)).Some?
    ensures var out := Forwarded(input, Some(e)).value;
      && ReadVarInt(out, 0) == Some((e.packetId, |EncodeVarInt(e.packetId)|))
      && out[|EncodeVarInt(e.packetId)|..] == e.rewrite.body
  {
    var enc := EncodeVarInt(e.packetId);
    var out := enc + e.rewrite.body;
    forall i: nat | i < |enc|
      ensures out[0 + i] == ByteAt(enc, i)
    {
    }
    ReadEncodeVarInt(out, 0, e.packetId);
  }

  // ---------------------------------------------------------------------
  // The exception counter

  /** The counter, the notice flag and the lines printed so far. */
  datatype Throttle = Throttle(catches: int32, sent: bool, log: seq<Line>)

  /** One caught exception: the counter goes up (as a Java int, wrapping);
      a stack trace is printed while the counter is below the limit, and
      past it the notice is printed if it has not been already. The notice
      needs the player's name: without a player it is neither printed nor
      marked as sent. */
  function Catch(t: Throttle, hasPlayer: bool): (r: Throttle) {
    var catches := Wrap32(t.catches as int + 1);
    if catches < TRACE_LIMIT then Throttle(catches, t.sent, t.log + [StackTrace])
    else if !t.sent && hasPlayer then Throttle(catches, true, t.log + [TooManyExceptions])
    else Throttle(catches, t.sent, t.log)
  }

  /** Whether handling a caught exception throws in turn: the notice is due
      but there is no player to name. */
  predicate CatchThrows(t: Throttle, hasPlayer: bool) {
    Wrap32(t.catches as int + 1) >= TRACE_LIMIT && !t.sent && !hasPlayer
  }

  /** The number of notices in a log. */
  function Notices(log: seq<Line>): nat {
    multiset(log)[TooManyExceptions]
  }

  /** The notice has been printed exactly when the flag is set, so at most once. */
  ghost predicate NoticeOnce(t: Throttle) {
    Notices(t.log) == if t.sent then 1 else 0
  }

  /** Catching keeps the notice printed at most once. */
  lemma CatchKeepsNoticeOnce(t: Throttle, hasPlayer: bool)
    requires NoticeOnce(t)
    ensures NoticeOnce(Catch(t, hasPlayer))
    ensures Notices(Catch(t, hasPlayer).log) <= 1
  {
    var r := Catch(t, hasPlayer);
    if r.log != t.log {
      assert multiset(r.log) == multiset(t.log) + multiset{r.log[|r.log| - 1]};
    }
  }

  /** `n` exceptions caught in a row on a fresh handler, with or without a
      player. */
  function CatchMany(n: nat, hasPlayer: bool): Throttle {
    if n == 0 then Throttle(0, false, []) else Catch(CatchMany(n - 1, hasPlayer), hasPlayer)
  }

  /** `n` copies of a line. */
  function Repeat(line: Line, n: nat): (r: seq<Line>)
    ensures |r| == n && forall i | 0 <= i < n :: r[i] == line
  {
    if n == 0 then [] else Repeat(line, n - 1) + [line]
  }

  /** On a fresh handler that knows its player, the first nine exceptions
      print stack traces, the tenth prints the notice, and later ones print
      nothing, for as long as the counter does not wrap; none of them
      escapes. */
  lemma {:induction false} CatchSchedule(n: nat)
    requires n < TWO_31
    ensures CatchMany(n, true).catches == n
    ensures CatchMany(n, true).sent <==> n >= 10
    ensures CatchMany(n, true).log ==
      if n < 10 then Repeat(StackTrace, n) else Repeat(StackTrace, 9) + [TooManyExceptions]
    ensures !CatchThrows(CatchMany(n, true), true)
  {
    if n > 0 {
      CatchSchedule(n - 1);
      WrapSmall(n);
      if n < 10 {
        assert Repeat(StackTrace, n) == Repeat(StackTrace, n - 1) + [StackTrace];
      }
    }
  }

  /** Without a player, the first nine exceptions print stack traces and
      every later one prints nothing, leaves the notice unsent, and escapes
      the handler (exception n + 1 escapes exactly when n >= 9). */
  lemma {:induction false} CatchScheduleWithoutPlayer(n: nat)
    requires n + 1 < TWO_31
    ensures CatchMany(n, false).catches == n
    ensures !CatchMany(n, false).sent
    ensures CatchMany(n, false).log == Repeat(StackTrace, if n < 10 then n else 9)
    ensures CatchThrows(CatchMany(n, false), false) <==> n >= 9
  {
    WrapSmall(n + 1);
    if n > 0 {
      CatchScheduleWithoutPlayer(n - 1);
      WrapSmall(n);
      if n < 10 {
        assert Repeat(StackTrace, n) == Repeat(StackTrace, n - 1) + [StackTrace];
      }
    }
  }

  /** A count below 2^31 does not wrap. */
  lemma WrapSmall(x: int)
    requires 0 <= x < TWO_31
    ensures Wrap32(x) == x
  {
    assert x % TWO_32 == x;
  }

  // ---------------------------------------------------------------------
  // The handler

  /** The list the decoded packets are added to. */
  class Output {
    var items: seq<ByteBuf>

    constructor ()
      ensures items == []
    {
      items := [];
    }
  }

  class PacketEventsDecoder {
    var catches: int32
    var sent: bool
    /** Whether the proxy has assigned the player the notice names. */
    var hasPlayer: bool
    /** The lines printed so far. */
    var log: seq<Line>
    /** The post tasks run so far, by name, in the order they ran. */
    var tasksRun: seq<nat>

    function State(): Throttle
      reads this
    {
      Throttle(catches, sent, log)
    }

    ghost predicate Valid()
      reads this
    {
      NoticeOnce(State())
    }

    constructor ()
      ensures Valid() && State() == CatchMany(0, false) && !hasPlayer && tasksRun == []
    {
      catches := 0;
      sent := false;
      hasPlayer := false;
      log := [];
      tasksRun := [];
    }

    /** The proxy assigns the player. */
    method SetPlayer()
      modifies this`hasPlayer
      ensures hasPlayer
    {
      hasPlayer := true;
    }

    /** The handler's response to a caught exception; `escaped` tells whether
        printing the notice threw for want of a player. */
    method Caught() returns (escaped: bool)
      requires Valid()
      modifies this`catches, this`sent, this`log
      ensures Valid() && State() == Catch(old(State()), hasPlayer)
      ensures escaped <==> CatchThrows(old(State()), hasPlayer)
    {
      CatchKeepsNoticeOnce(State(), hasPlayer);
      catches := Wrap32(catches as int + 1);
      escaped := false;
      if catches < TRACE_LIMIT {
        log := log + [StackTrace];
      } else if !sent {
        if hasPlayer {
          log := log + [TooManyExceptions];
          sent := true;
        } else {
          escaped := true;
        }
      }
    }

    /** Runs the tasks in order, stopping at the first that throws. */
    method RunPostTasks(tasks: seq<Task>) returns (threw: bool)
      modifies this`tasksRun
      ensures tasksRun == old(tasksRun) + TasksRun(tasks)
      ensures threw <==> exists i | 0 <= i < |tasks| :: tasks[i].throws
    {
      var i := 0;
      while i < |tasks|
        invariant 0 <= i <= |tasks|
        invariant forall j | 0 <= j < i :: !tasks[j].throws
        invariant tasksRun == old(tasksRun) + Names(tasks[..i])
      {
        TasksRunStep(tasks, i);
        tasksRun := tasksRun + [tasks[i].name];
        assert Names(tasks[..i + 1]) == Names(tasks[..i]) + [tasks[i].name];
        if tasks[i].throws {
          return true;
        }
        i := i + 1;
      }
      assert tasks[..i] == tasks;
      TasksRunOrder(tasks);
      threw := false;
    }

    /** The decision for an event that was not cancelled: without a wrapper
        the copy is rewound to its first byte, with one it is cleared and
        rewritten as the packet id and the wrapper's bytes; unless the
        wrapper threw, the copy is retained and added to the output. */
    method Commit(transformed: ByteBuf, e: Event, output: Output) returns (threw: bool)
      requires transformed.Valid() && !e.cancelled
      modifies transformed, output
      ensures threw <==> e.rewrite.WriteThrows?
      ensures output.items == old(output.items) + if threw then [] else [transformed]
      ensures !threw ==> (transformed.Valid() && transformed.Readable() ==
        match e.rewrite
        case NoWrapper => old(transformed.bytes)
        case Rewritten(body) => EncodeVarInt(e.packetId) + body
        case WriteThrows => [])
      ensures transformed.refCnt == old(transformed.refCnt) + if threw then 0 else 1
    {
      threw := false;
      match e.rewrite {
        case NoWrapper =>
          transformed.SetReaderIndex(0);
        case Rewritten(body) =>
          transformed.Clear();
          transformed.WriteBytes(EncodeVarInt(e.packetId));
          transformed.WriteBytes(body);
        case WriteThrows =>
          transformed.Clear();
          transformed.WriteBytes(EncodeVarInt(e.packetId));
          threw := true;
      }
      if !threw {
        transformed.Retain();
        output.items := output.items + [transformed];
      }
    }

    /** Handles one packet: copies its readable bytes, lets the listeners
        see it, passes on, drops or rewrites the copy, runs the post tasks,
        counts a caught exception, and releases the copy on every path;
        `escaped` tells whether an exception left the handler. */
    method Read(byteBuf: ByteBuf, ev: Option<Event>, output: Output) returns (transformed: ByteBuf, escaped: bool)
      requires Valid() && byteBuf.Valid()
      requires ev.Some? ==> ev.value.readerIndex <= |byteBuf.Readable()|
      modifies this, byteBuf, output
      ensures fresh(transformed)
      ensures Valid()
      ensures byteBuf.bytes == old(byteBuf.bytes) && byteBuf.readerIndex == |byteBuf.bytes|
      ensures byteBuf.refCnt == old(byteBuf.refCnt)
      ensures output.items ==
        old(output.items) + if Forwarded(old(byteBuf.Readable()), ev).Some? then [transformed] else []
      ensures Forwarded(old(byteBuf.Readable()), ev).Some? ==>
        transformed.Valid() && transformed.Readable() == Forwarded(old(byteBuf.Readable()), ev).value
      ensures transformed.refCnt == if Forwarded(old(byteBuf.Readable()), ev).Some? then 1 else 0
      ensures tasksRun == old(tasksRun) + PostTasksRun(ev)
      ensures hasPlayer == old(hasPlayer)
      ensures State() == if Throws(ev) then Catch(old(State()), hasPlayer) else old(State())
      ensures escaped <==> Throws(ev) && CatchThrows(old(State()), hasPlayer)
    {
      escaped := false;
      var input := byteBuf.Readable();
      transformed := new ByteBuf(input);
      byteBuf.readerIndex := |byteBuf.bytes|;
      if ev.None? {
        escaped := Caught();
      } else {
        var e := ev.value;
        transformed.SetReaderIndex(e.readerIndex);
        var threw := false;
        if !e.cancelled {
          threw := Commit(transformed, e, output);
        }
        if !threw {
          threw := RunPostTasks(e.postTasks);
        }
        if threw {
          escaped := Caught();
        }
      }
      transformed.Release();
    }

    /** The decoder hands a buffer on only when it has bytes to read; an
        empty buffer changes nothing, and a readable one has the effect
        `Read` states: the old output items stay, a forwarded packet adds
        one fresh buffer holding its bytes, and the input keeps its bytes
        and reference count. */
    method Decode(byteBuf: ByteBuf, ev: Option<Event>, output: Output) returns (escaped: bool)
      requires Valid() && byteBuf.Valid()
      requires ev.Some? ==> ev.value.readerIndex <= |byteBuf.Readable()|
      modifies this, byteBuf, output
      ensures Valid()
      ensures !old(byteBuf.IsReadable()) ==>
        unchanged(this) && unchanged(byteBuf) && unchanged(output)
      ensures old(byteBuf.IsReadable()) ==>
        && byteBuf.readerIndex == |byteBuf.bytes|
        && byteBuf.bytes == old(byteBuf.bytes) && byteBuf.refCnt == old(byteBuf.refCnt)
        && |output.items| == |old(output.items)| + (if Forwarded(old(byteBuf.Readable()), ev).Some? then 1 else 0)
        && output.items[..|old(output.items)|] == old(output.items)
        && (Forwarded(old(byteBuf.Readable()), ev).Some? ==>
              var t := output.items[|output.items| - 1];
              fresh(t) && t.Valid() && t.Readable() == Forwarded(old(byteBuf.Readable()), ev).value && t.refCnt == 1)
        && tasksRun == old(tasksRun) + PostTasksRun(ev)
        && hasPlayer == old(hasPlayer)
        && State() == (if Throws(ev) then Catch(old(State()), hasPlayer) else old(State()))
        && (escaped <==> Throws(ev) && CatchThrows(old(State()), hasPlayer))
      ensures !old(byteBuf.IsReadable()) ==> !escaped
    {
      escaped := false;
      if byteBuf.IsReadable() {
        var _, e := Read(byteBuf, ev, output);
        escaped := e;
      }
    }
  }
}
