/** The notification manager's queue between the senders and the notification handler. */
module NotificationQueues {
  /** What the handler's select can see: a value offered on the input, with the reader of the
      output ready or not; the reader of the output ready; the input closed or quit. */
  datatype Event<T> = In(value: T, ready: bool) | OutReady | Stop

  /** The values taken from the input before the handler stops. */
  function Received<T>(events: seq<Event<T>>): seq<T>
  {
    if events == [] || events[0].Stop? then []
    else (if events[0].In? then [events[0].value] else []) + Received(events[1..])
  }

  /** How many values a queue holds that passes a value straight on only when it is empty and
      its reader is ready, and otherwise gives the reader one whenever it holds any. */
  function Held<T>(events: seq<Event<T>>, held: nat): nat
  {
    if events == [] then held
    else
      match events[0]
      case Stop => held
      case In(_, ready) => Held(events[1..], if held == 0 && ready then 0 else held + 1)
      case OutReady => Held(events[1..], if held == 0 then 0 else held - 1)
  }

  /** The handler: everything received is sent in order or still held, nothing twice. */
  method QueueHandler<T>(events: seq<Event<T>>) returns (sent: seq<T>, left: seq<T>)
    ensures sent + left == Received(events)
    ensures |left| == Held(events, 0)
  {
    var q: seq<T> := [];
    var dequeue, skipQueue := false, true;
    var next: seq<T> := [];
    sent := [];
    for i := 0 to |events|
      invariant skipQueue == (q == []) && dequeue == (q != [])
      invariant dequeue ==> next == q[..1]
      invariant sent + q + Received(events[i..]) == Received(events)
      invariant Held(events[i..], |q|) == Held(events, 0)
    {
      ghost var rest := Received(events[i + 1..]);
      assert events[i..][1..] == events[i + 1..] && events[i..][0] == events[i];
      match events[i] {
        case Stop =>
          return sent, q;
        case In(n, ready) =>
          Regroup(sent, q, n, rest);
          if skipQueue && ready {
            sent := sent + [n];
          } else {
            q := q + [n];
            dequeue, skipQueue := true, false;
            next := [q[0]];
          }
        case OutReady =>
          if dequeue {
            assert q == next + q[1..];
            sent := sent + next;
            q := q[1..];
            if |q| == 0 {
              dequeue, skipQueue := false, true;
            } else {
              next := [q[0]];
            }
          }
      }
    }
    left := q;
    assert events[|events|..] == [];
  }

  lemma Regroup<T>(sent: seq<T>, q: seq<T>, n: T, rest: seq<T>)
    ensures sent + q + ([n] + rest) == sent + (q + [n]) + rest
    ensures q == [] ==> sent + q + ([n] + rest) == (sent + [n]) + q + rest
  {
  }
}
