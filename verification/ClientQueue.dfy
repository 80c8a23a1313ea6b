/**
 * Outgoing messages of one websocket client: the notification queue handler and
 * the output handler, two goroutines joined by the notification channel, the
 * send channel and the completion channel, as a state machine over their steps
 * and those of everyone who queues.
 */
module ClientQueues {
  import opened Basics

  const SEND_BUFFER := 50

  datatype Response<T> = Response(msg: T, notice: bool)

  /** accepted and written are the history; sending and writing hold what a handler has in hand. */
  datatype State<T> = State(
    accepted: seq<T>,
    ntfnChan: seq<T>,
    pending: seq<T>,
    waiting: bool,
    sending: seq<T>,
    sendChan: seq<Response<T>>,
    writing: seq<Response<T>>,
    signals: nat,
    written: seq<Response<T>>,
    quit: bool,
    signalLost: bool)

  function Init<T>(): State<T>
  {
    State([], [], [], false, [], [], [], 0, [], false, false)
  }

  datatype Step<T> =
    | Queue(msg: T)        // QueueNotification hands over a notification
    | Respond(msg: T)      // a reply goes straight to the send channel
    | Take                 // the queue handler receives a notification
    | Push                 // its message goes into the send channel
    | Signalled            // it receives a completion signal
    | Fetch                // the output handler receives a message
    | Write                // it has written the message
    | Disconnect
    | GiveUp               // SendMessage sees the closed quit channel instead

  /** A completion signal is dropped when the last one has not been received. */
  function SignalDone<T>(s: State<T>): State<T>
  {
    if s.signals < 1 then s.(signals := s.signals + 1) else s.(signalLost := true)
  }

  /** The queue handler calls SendMessage, which refuses after the client disconnects. */
  function StartSend<T>(s: State<T>, msg: T): State<T>
  {
    if s.quit then SignalDone(s).(waiting := true) else s.(sending := [msg])
  }

  predicate Enabled<T>(s: State<T>, step: Step<T>)
  {
    match step
    case Queue(_) => |s.ntfnChan| < 1
    case Respond(_) => |s.sendChan| < SEND_BUFFER
    case Take => s.sending == [] && s.ntfnChan != []
    case Push => s.sending != [] && |s.sendChan| < SEND_BUFFER
    case Signalled => s.sending == [] && s.signals > 0
    case Fetch => s.writing == [] && s.sendChan != []
    case Write => s.writing != []
    case Disconnect => true
    case GiveUp => s.sending != [] && s.quit
  }

  function Next<T>(s: State<T>, step: Step<T>): State<T>
    requires Enabled(s, step)
  {
    match step
    case Queue(msg) => s.(accepted := s.accepted + [msg], ntfnChan := s.ntfnChan + [msg])
    case Respond(msg) => s.(sendChan := s.sendChan + [Response(msg, false)])
    case Take =>
      var s1, msg := s.(ntfnChan := s.ntfnChan[1..]), s.ntfnChan[0];
      if !s.waiting then StartSend(s1, msg)
      else s1.(pending := s.pending + [msg])
    case Push => s.(sending := [], waiting := true, sendChan := s.sendChan + [Response(s.sending[0], true)])
    case Signalled =>
      var s1 := s.(signals := s.signals - 1);
      if s.pending == [] then s1.(waiting := false)
      else StartSend(s1.(pending := s.pending[1..]), s.pending[0])
    case Fetch => s.(sendChan := s.sendChan[1..], writing := [s.sendChan[0]])
    case Write =>
      var s1 := s.(writing := [], written := s.written + s.writing);
      if s.writing[0].notice then SignalDone(s1) else s1
    case Disconnect => s.(quit := true)
    case GiveUp => SignalDone(s.(sending := [], waiting := true))
  }

  /** A run: any steps in any order, those that cannot happen skipped. */
  function Run<T>(s: State<T>, steps: seq<Step<T>>): State<T>
    decreases |steps|
  {
    if steps == [] then s
    else Run(if Enabled(s, steps[0]) then Next(s, steps[0]) else s, steps[1..])
  }

  // ---------- the invariant ----------

  function Notices<T>(rs: seq<Response<T>>): seq<T>
  {
    if rs == [] then []
    else (if rs[0].notice then [rs[0].msg] else []) + Notices(rs[1..])
  }

  lemma {:induction false} NoticesConcat<T>(a: seq<Response<T>>, b: seq<Response<T>>)
    ensures Notices(a + b) == Notices(a) + Notices(b)
  {
    if a == [] {
      assert a + b == b;
    } else {
      NoticesConcat(a[1..], b);
      assert (a + b)[0] == a[0] && (a + b)[1..] == a[1..] + b;
      Assoc(if a[0].notice then [a[0].msg] else [], Notices(a[1..]), Notices(b));
    }
  }

  /** The notifications on their way to the client, oldest first. */
  function Line<T>(s: State<T>): seq<T>
  {
    Notices(s.written + s.writing + s.sendChan) + s.sending
  }

  /** Notifications and signals that the queue handler has to wait for. */
  function Outstanding<T>(s: State<T>): nat
  {
    |Notices(s.writing + s.sendChan)| + |s.sending| + s.signals
  }

  ghost predicate Inv<T>(s: State<T>)
  {
    && |s.sending| <= 1 && |s.writing| <= 1 && |s.sendChan| <= SEND_BUFFER && |s.ntfnChan| <= 1
    && Line(s) <= s.accepted
    && (!s.quit ==> Busy(s))
  }

  /** Before a disconnect nothing is lost and at most one completion is awaited. */
  ghost predicate Busy<T>(s: State<T>)
  {
    && !s.signalLost
    && Line(s) + s.pending + s.ntfnChan == s.accepted
    && Outstanding(s) == (if s.waiting || s.sending != [] then 1 else 0)
    && (!s.waiting ==> s.pending == [])
  }

  // ---------- every step keeps it ----------

  lemma PushKeeps<T>(s: State<T>)
    requires Inv(s) && Enabled(s, Push)
    ensures Inv(Next(s, Push))
  {
    var r := Response(s.sending[0], true);
    assert s.sending == [s.sending[0]];
    NoticesConcat(s.written + s.writing + s.sendChan, [r]);
    NoticesConcat(s.writing + s.sendChan, [r]);
    assert s.written + s.writing + s.sendChan + [r] == s.written + s.writing + (s.sendChan + [r]);
    assert s.writing + s.sendChan + [r] == s.writing + (s.sendChan + [r]);
    assert Notices([r]) == s.sending;
    assert Line(Next(s, Push)) == Line(s);
  }

  lemma RespondKeeps<T>(s: State<T>, msg: T)
    requires Inv(s) && Enabled(s, Respond(msg))
    ensures Inv(Next(s, Respond(msg)))
  {
    var r := Response(msg, false);
    NoticesConcat(s.written + s.writing + s.sendChan, [r]);
    NoticesConcat(s.writing + s.sendChan, [r]);
    assert s.written + s.writing + s.sendChan + [r] == s.written + s.writing + (s.sendChan + [r]);
    assert s.writing + s.sendChan + [r] == s.writing + (s.sendChan + [r]);
    assert Notices([r]) == [];
    assert Line(Next(s, Respond(msg))) == Line(s);
  }

  lemma FetchKeeps<T>(s: State<T>)
    requires Inv(s) && Enabled(s, Fetch)
    ensures Inv(Next(s, Fetch))
  {
    var t := Next(s, Fetch);
    assert s.written + s.writing + s.sendChan == t.written + t.writing + t.sendChan;
    assert s.writing + s.sendChan == t.writing + t.sendChan;
  }

  lemma WriteKeeps<T>(s: State<T>)
    requires Inv(s) && Enabled(s, Write)
    ensures Inv(Next(s, Write))
  {
    WriteKeepsLine(s);
    WriteCounts(s);
  }

  lemma WriteCounts<T>(s: State<T>)
    requires |s.writing| == 1
    ensures |Notices(s.writing + s.sendChan)| == |Notices([] + s.sendChan)| + if s.writing[0].notice then 1 else 0
  {
    var all := s.writing + s.sendChan;
    assert all[0] == s.writing[0] && all[1..] == s.sendChan == [] + s.sendChan;
  }

  lemma WriteKeepsLine<T>(s: State<T>)
    requires |s.writing| == 1
    ensures Line(Next(s, Write)) == Line(s)
  {
    assert s.written + s.writing + [] + s.sendChan == s.written + s.writing + s.sendChan;
  }

  /** The oldest waiting notification moves up. */
  lemma MoveUp<T>(line: seq<T>, pending: seq<T>, behind: seq<T>)
    requires pending != []
    ensures (line + []) + pending + behind == (line + [pending[0]]) + pending[1..] + behind
    ensures line + [pending[0]] <= (line + []) + pending + behind
  {
  }

  lemma TakeKeeps<T>(s: State<T>)
    requires Inv(s) && Enabled(s, Take)
    ensures Inv(Next(s, Take))
  {
    var n := Notices(s.written + s.writing + s.sendChan);
    assert s.ntfnChan == [s.ntfnChan[0]];
    if s.waiting {
      TakeJoins(Line(s), s.pending, s.ntfnChan);
    } else if !s.quit {
      MoveUp(n, s.ntfnChan, []);
      assert Line(s) == n + [] && Line(Next(s, Take)) == n + [s.ntfnChan[0]];
      assert Line(s) + s.pending + s.ntfnChan == (n + []) + s.ntfnChan + [];
    }
  }

  lemma TakeJoins<T>(line: seq<T>, pending: seq<T>, chan: seq<T>)
    requires |chan| == 1
    ensures line + pending + chan == line + (pending + [chan[0]]) + []
  {
  }

  lemma SignalledKeeps<T>(s: State<T>)
    requires Inv(s) && Enabled(s, Signalled)
    ensures Inv(Next(s, Signalled))
  {
    if s.pending != [] {
      SignalledMovesUp(s);
    }
  }

  lemma SignalledMovesUp<T>(s: State<T>)
    requires Inv(s) && Enabled(s, Signalled) && s.pending != []
    ensures Inv(Next(s, Signalled))
  {
    var t, n := Next(s, Signalled), Notices(s.written + s.writing + s.sendChan);
    if s.quit {
      assert Line(t) == Line(s);
    } else {
      MoveUp(n, s.pending, s.ntfnChan);
      assert Line(s) == n + [] && Line(t) == n + [s.pending[0]];
    }
  }

  lemma StepKeeps<T>(s: State<T>, step: Step<T>)
    requires Inv(s) && Enabled(s, step)
    ensures Inv(Next(s, step))
  {
    match step
    case Queue(msg) =>
      assert !s.quit ==> Line(s) + s.pending + (s.ntfnChan + [msg]) == s.accepted + [msg];
    case Respond(msg) => RespondKeeps(s, msg);
    case Take => TakeKeeps(s);
    case Push => PushKeeps(s);
    case Signalled => SignalledKeeps(s);
    case Fetch => FetchKeeps(s);
    case Write => WriteKeeps(s);
    case Disconnect =>
    case GiveUp =>
  }

  lemma {:induction false} RunKeeps<T>(s: State<T>, steps: seq<Step<T>>)
    requires Inv(s)
    ensures Inv(Run(s, steps))
    decreases |steps|
  {
    if steps != [] {
      if Enabled(s, steps[0]) {
        StepKeeps(s, steps[0]);
        RunKeeps(Next(s, steps[0]), steps[1..]);
      } else {
        RunKeeps(s, steps[1..]);
      }
    }
  }

  // ---------- what was handed over ----------

  /** The notifications queued in the course of a run, oldest first. */
  function Queued<T>(s: State<T>, steps: seq<Step<T>>): seq<T>
    decreases |steps|
  {
    if steps == [] then []
    else if !Enabled(s, steps[0]) then Queued(s, steps[1..])
    else (if steps[0].Queue? then [steps[0].msg] else []) + Queued(Next(s, steps[0]), steps[1..])
  }

  /** The replies made in the course of a run, oldest first. */
  function Replied<T>(s: State<T>, steps: seq<Step<T>>): seq<T>
    decreases |steps|
  {
    if steps == [] then []
    else if !Enabled(s, steps[0]) then Replied(s, steps[1..])
    else (if steps[0].Respond? then [steps[0].msg] else []) + Replied(Next(s, steps[0]), steps[1..])
  }

  function Replies<T>(rs: seq<Response<T>>): seq<T>
  {
    if rs == [] then []
    else (if rs[0].notice then [] else [rs[0].msg]) + Replies(rs[1..])
  }

  lemma {:induction false} RepliesConcat<T>(a: seq<Response<T>>, b: seq<Response<T>>)
    ensures Replies(a + b) == Replies(a) + Replies(b)
  {
    if a == [] {
      assert a + b == b;
    } else {
      RepliesConcat(a[1..], b);
      assert (a + b)[0] == a[0] && (a + b)[1..] == a[1..] + b;
      Assoc(if a[0].notice then [] else [a[0].msg], Replies(a[1..]), Replies(b));
    }
  }

  /** Everything written, being written and waiting to be written. */
  function Stream<T>(s: State<T>): seq<Response<T>>
  {
    s.written + s.writing + s.sendChan
  }

  /** Messages join the stream at its end, and only by being sent. */
  lemma StreamGrows<T>(s: State<T>, step: Step<T>)
    requires Enabled(s, step)
    ensures Stream(Next(s, step)) == Stream(s)
      + if step.Respond? then [Response(step.msg, false)] else if step.Push? then [Response(s.sending[0], true)] else []
    ensures Next(s, step).accepted == s.accepted + if step.Queue? then [step.msg] else []
  {
    var t := Next(s, step);
    if step.Fetch? {
      assert s.sendChan == [s.sendChan[0]] + t.sendChan;
    }
  }

  /** What a run accepted is what was queued in it, and the replies in the stream are those made in it. */
  lemma {:induction false} RunHistory<T>(s: State<T>, steps: seq<Step<T>>)
    ensures Run(s, steps).accepted == s.accepted + Queued(s, steps)
    ensures Replies(Stream(Run(s, steps))) == Replies(Stream(s)) + Replied(s, steps)
    decreases |steps|
  {
    if steps != [] {
      var step := steps[0];
      if Enabled(s, step) {
        var t := Next(s, step);
        RunHistory(t, steps[1..]);
        StreamGrows(s, step);
        var more := if step.Respond? then [Response(step.msg, false)]
                    else if step.Push? then [Response(s.sending[0], true)] else [];
        RepliesConcat(Stream(s), more);
        assert Replies(more) == if step.Respond? then [step.msg] else [];
        Assoc(Replies(Stream(s)), Replies(more), Replied(t, steps[1..]));
        Assoc(s.accepted, if step.Queue? then [step.msg] else [], Queued(t, steps[1..]));
      } else {
        RunHistory(s, steps[1..]);
      }
    }
  }

  // ---------- what the client sees ----------

  /** In every run the client receives the queued notifications and the replies, each in their order and at most once.
      Replies are never lost on their way; until it disconnects no notification is, and every completion signal is
      received. */
  lemma InOrder<T>(steps: seq<Step<T>>)
    ensures var s := Run(Init(), steps);
      && Notices(s.written) <= Queued(Init(), steps) == s.accepted
      && Replies(s.written) <= Replied(Init(), steps) == Replies(Stream(s))
      && (!s.quit ==> !s.signalLost && Line(s) + s.pending + s.ntfnChan == s.accepted)
  {
    RunKeeps(Init<T>(), steps);
    var s := Run(Init(), steps);
    NoticesConcat(s.written, s.writing);
    NoticesConcat(s.written + s.writing, s.sendChan);
    assert Notices(s.written) <= Line(s);
    RunHistory(Init<T>(), steps);
    RepliesConcat(s.written, s.writing);
    RepliesConcat(s.written + s.writing, s.sendChan);
    assert Queued(Init<T>(), steps) == [] + Queued(Init(), steps);
    assert Replied(Init<T>(), steps) == [] + Replied(Init(), steps);
  }

  /** A step of the two handlers themselves. */
  predicate Internal<T>(step: Step<T>)
  {
    step.Take? || step.Push? || step.Signalled? || step.Fetch? || step.Write?
  }

  /** The work the handlers still have. */
  function Work<T>(s: State<T>): nat
  {
    6 * |s.ntfnChan| + 5 * |s.pending| + 4 * |s.sending| + 3 * |s.sendChan| + 2 * |s.writing| + s.signals
  }

  /** The handlers' own steps cannot go on for ever. */
  lemma WorkShrinks<T>(s: State<T>, step: Step<T>)
    requires Inv(s) && !s.quit && Internal(step) && Enabled(s, step)
    ensures Work(Next(s, step)) < Work(s)
  {
  }

  /** And when they stop, every queued notification and every reply has been written, and nobody who wants to hand
      over another one has to wait. */
  lemma AllWritten<T>(s: State<T>)
    requires Inv(s) && !s.quit
    requires forall step: Step<T> :: Internal(step) ==> !Enabled(s, step)
    ensures Notices(s.written) == s.accepted && !s.waiting && Replies(s.written) == Replies(Stream(s))
    ensures forall msg :: Enabled(s, Queue(msg)) && Enabled(s, Respond(msg))
  {
    assert !Enabled<T>(s, Take) && !Enabled<T>(s, Push) && !Enabled<T>(s, Signalled);
    assert !Enabled<T>(s, Fetch) && !Enabled<T>(s, Write);
    assert s.written + s.writing + s.sendChan == s.written;
  }

  /** So in every run that leaves the handlers nothing to do and in which the client did not disconnect. */
  lemma AllDelivered<T>(steps: seq<Step<T>>)
    requires !Run(Init<T>(), steps).quit
    requires forall step: Step<T> :: Internal(step) ==> !Enabled(Run(Init(), steps), step)
    ensures var s := Run(Init<T>(), steps);
      Notices(s.written) == Queued(Init(), steps) && Replies(s.written) == Replied(Init(), steps)
  {
    RunKeeps(Init<T>(), steps);
    InOrder(steps);
    AllWritten(Run(Init<T>(), steps));
  }
}
