/**
 * Admission of inbound connections: the slot channel and the count per address,
 * taken by the listeners' preflight and given back by the handshake handler or
 * the peer's done handler.  Every listener and every connection has goroutines
 * of its own, so a run is any interleaving of their steps.
 */
module InboundAdmission {
  import opened Basics

  type IP = string

  /** How far a connection has come.  Each name says what has happened last. */
  datatype Stage =
    | Arrived
    | SlotTaken          // preflight has its slot and will look at the address
    | OverLimit          // its address has enough connections: the slot goes back
    | Refused
    | Admitted           // preflight accepted: the handshake runs
    | HandshakeFailed    // the deferred release runs: slot first, then address
    | SlotBack
    | Connected          // the peer runs and owns both
    | Disconnected       // its done handler runs: address first, then slot
    | AddressBack
    | Closed

  datatype Conn = Conn(ip: IP, stage: Stage)

  /** capacity is the size of the slot channel; a limit of 0 means none. */
  datatype Server = Server(capacity: nat, maxPerIP: nat, slots: nat, byIP: map<IP, nat>, conns: seq<Conn>)

  function Count(byIP: map<IP, nat>, ip: IP): nat
  {
    if ip in byIP then byIP[ip] else 0
  }

  function ReleaseIP(byIP: map<IP, nat>, ip: IP): map<IP, nat>
  {
    if Count(byIP, ip) <= 1 then byIP - {ip} else byIP[ip := byIP[ip] - 1]
  }

  datatype Event =
    | Arrive(ip: IP)
    | Proceed(i: nat, ok: bool)   // the next step of connection i; ok is the outcome of a handshake

  /** Receiving from the slot channel waits while it is empty. */
  predicate TakesFromChannel(stage: Stage)
  {
    stage.OverLimit? || stage.HandshakeFailed? || stage.AddressBack?
  }

  predicate Over(stage: Stage)
  {
    stage.Refused? || stage.Closed?
  }

  predicate Enabled(s: Server, e: Event)
  {
    e.Proceed? ==>
      && e.i < |s.conns| && !Over(s.conns[e.i].stage)
      && (TakesFromChannel(s.conns[e.i].stage) ==> s.slots > 0)
  }

  function Moved(s: Server, i: nat, stage: Stage): Server
    requires i < |s.conns|
  {
    s.(conns := s.conns[i := s.conns[i].(stage := stage)])
  }

  function Next(s: Server, e: Event): Server
    requires Enabled(s, e)
  {
    match e
    case Arrive(ip) => s.(conns := s.conns + [Conn(ip, Arrived)])
    case Proceed(i, ok) =>
      var ip := s.conns[i].ip;
      match s.conns[i].stage
      case Arrived =>
        if s.slots < s.capacity then Moved(s, i, SlotTaken).(slots := s.slots + 1) else Moved(s, i, Refused)
      case SlotTaken =>
        if s.maxPerIP > 0 && Count(s.byIP, ip) >= s.maxPerIP then Moved(s, i, OverLimit)
        else Moved(s, i, Admitted).(byIP := s.byIP[ip := Count(s.byIP, ip) + 1])
      case OverLimit => Moved(s, i, Refused).(slots := s.slots - 1)
      case Admitted => Moved(s, i, if ok then Connected else HandshakeFailed)
      case HandshakeFailed => Moved(s, i, SlotBack).(slots := s.slots - 1)
      case SlotBack => Moved(s, i, Closed).(byIP := ReleaseIP(s.byIP, ip))
      case Connected => Moved(s, i, Disconnected)
      case Disconnected => Moved(s, i, AddressBack).(byIP := ReleaseIP(s.byIP, ip))
      case AddressBack => Moved(s, i, Closed).(slots := s.slots - 1)
      case _ => s
  }

  function Start(capacity: nat, maxPerIP: nat): Server
  {
    Server(capacity, maxPerIP, 0, map[], [])
  }

  function Run(s: Server, events: seq<Event>): Server
    decreases |events|
  {
    if events == [] then s
    else Run(if Enabled(s, events[0]) then Next(s, events[0]) else s, events[1..])
  }

  // ---------- who holds what ----------

  predicate HoldsSlot(c: Conn)
  {
    !(c.stage.Arrived? || c.stage.Refused? || c.stage.SlotBack? || c.stage.Closed?)
  }

  predicate HoldsAddress(c: Conn, ip: IP)
  {
    && c.ip == ip
    && (c.stage.Admitted? || c.stage.HandshakeFailed? || c.stage.SlotBack? || c.stage.Connected?
        || c.stage.Disconnected?)
  }

  function Slots(conns: seq<Conn>): nat
  {
    if conns == [] then 0 else Slots(conns[..|conns| - 1]) + if HoldsSlot(conns[|conns| - 1]) then 1 else 0
  }

  function Addresses(conns: seq<Conn>, ip: IP): nat
  {
    if conns == [] then 0
    else Addresses(conns[..|conns| - 1], ip) + if HoldsAddress(conns[|conns| - 1], ip) then 1 else 0
  }

  lemma {:induction false} SlotsUpdate(conns: seq<Conn>, i: nat, c: Conn)
    requires i < |conns|
    ensures Slots(conns[i := c]) + (if HoldsSlot(conns[i]) then 1 else 0)
         == Slots(conns) + if HoldsSlot(c) then 1 else 0
    decreases |conns|
  {
    var n := |conns| - 1;
    if i < n {
      SlotsUpdate(conns[..n], i, c);
      assert conns[i := c][..n] == conns[..n][i := c];
    } else {
      assert conns[i := c][..n] == conns[..n];
    }
  }

  lemma {:induction false} AddressesUpdate(conns: seq<Conn>, i: nat, c: Conn, ip: IP)
    requires i < |conns|
    ensures Addresses(conns[i := c], ip) + (if HoldsAddress(conns[i], ip) then 1 else 0)
         == Addresses(conns, ip) + if HoldsAddress(c, ip) then 1 else 0
    decreases |conns|
  {
    var n := |conns| - 1;
    if i < n {
      AddressesUpdate(conns[..n], i, c, ip);
      assert conns[i := c][..n] == conns[..n][i := c];
    } else {
      assert conns[i := c][..n] == conns[..n];
    }
  }

  lemma {:induction false} HoldersCount(conns: seq<Conn>, i: nat)
    requires i < |conns|
    ensures HoldsSlot(conns[i]) ==> Slots(conns) > 0
    ensures HoldsAddress(conns[i], conns[i].ip) ==> Addresses(conns, conns[i].ip) > 0
    decreases |conns|
  {
    var n := |conns| - 1;
    if i < n {
      HoldersCount(conns[..n], i);
    }
  }

  // ---------- conservation ----------

  /** The channel and the counts are exactly what the connections hold, within the limits. */
  ghost predicate Inv(s: Server)
  {
    && s.slots == Slots(s.conns) <= s.capacity
    && (forall ip {:trigger Count(s.byIP, ip)} :: Count(s.byIP, ip) == Addresses(s.conns, ip))
    && (forall ip :: ip in s.byIP ==> s.byIP[ip] > 0)
    && (s.maxPerIP > 0 ==> forall ip {:trigger Count(s.byIP, ip)} :: Count(s.byIP, ip) <= s.maxPerIP)
  }

  lemma ArriveKeeps(s: Server, ip: IP)
    requires Inv(s)
    ensures Inv(Next(s, Arrive(ip)))
  {
    var t := Next(s, Arrive(ip));
    assert t.conns[..|t.conns| - 1] == s.conns;
  }

  /** What a move changes in the two counts. */
  lemma MoveCounts(s: Server, i: nat, stage: Stage)
    requires i < |s.conns|
    ensures var c, d, t := s.conns[i], s.conns[i].(stage := stage), Moved(s, i, stage);
      && Slots(t.conns) + (if HoldsSlot(c) then 1 else 0) == Slots(s.conns) + (if HoldsSlot(d) then 1 else 0)
      && forall ip :: Addresses(t.conns, ip) + (if HoldsAddress(c, ip) then 1 else 0)
                   == Addresses(s.conns, ip) + (if HoldsAddress(d, ip) then 1 else 0)
  {
    var d := s.conns[i].(stage := stage);
    SlotsUpdate(s.conns, i, d);
    forall ip
      ensures Addresses(s.conns[i := d], ip) + (if HoldsAddress(s.conns[i], ip) then 1 else 0)
           == Addresses(s.conns, ip) + (if HoldsAddress(d, ip) then 1 else 0)
    {
      AddressesUpdate(s.conns, i, d, ip);
    }
  }

  function One(b: bool): nat
  {
    if b then 1 else 0
  }

  /** A step that takes, gives back or keeps the slot and does nothing to the address. */
  lemma SlotStepKeeps(s: Server, i: nat, stage: Stage, slots: nat)
    requires Inv(s) && i < |s.conns|
    requires var c, d := s.conns[i], s.conns[i].(stage := stage);
      && HoldsAddress(c, c.ip) == HoldsAddress(d, c.ip)
      && slots + One(HoldsSlot(c)) == s.slots + One(HoldsSlot(d)) && slots <= s.capacity
    ensures Inv(Moved(s, i, stage).(slots := slots))
  {
    MoveCounts(s, i, stage);
  }

  /** A step that takes or gives back the address and keeps the slot as it is. */
  lemma AddressStepKeeps(s: Server, i: nat, stage: Stage, byIP: map<IP, nat>)
    requires Inv(s) && i < |s.conns|
    requires HoldsSlot(s.conns[i]) == HoldsSlot(s.conns[i].(stage := stage))
    requires Counts(s, i, stage, byIP)
    requires forall x :: x in byIP ==> byIP[x] > 0
    requires s.maxPerIP > 0 ==> Count(byIP, s.conns[i].ip) <= s.maxPerIP
    ensures Inv(Moved(s, i, stage).(byIP := byIP))
  {
    MoveCounts(s, i, stage);
    var t := Moved(s, i, stage).(byIP := byIP);
    forall x
      ensures Count(byIP, x) == Addresses(t.conns, x) && (s.maxPerIP > 0 ==> Count(byIP, x) <= s.maxPerIP)
    {
      assert Count(s.byIP, x) == Addresses(s.conns, x);
    }
  }

  ghost predicate Counts(s: Server, i: nat, stage: Stage, byIP: map<IP, nat>)
    requires i < |s.conns|
  {
    var c, d := s.conns[i], s.conns[i].(stage := stage);
    forall x {:trigger Count(byIP, x)} ::
      Count(byIP, x) + One(HoldsAddress(c, x)) == Count(s.byIP, x) + One(HoldsAddress(d, x))
  }

  lemma ReleaseKeeps(s: Server, i: nat, stage: Stage)
    requires Inv(s) && i < |s.conns| && HoldsAddress(s.conns[i], s.conns[i].ip)
    requires HoldsSlot(s.conns[i]) == HoldsSlot(s.conns[i].(stage := stage))
    requires !HoldsAddress(s.conns[i].(stage := stage), s.conns[i].ip)
    ensures Inv(Moved(s, i, stage).(byIP := ReleaseIP(s.byIP, s.conns[i].ip)))
  {
    var ip := s.conns[i].ip;
    HoldersCount(s.conns, i);
    assert Count(s.byIP, ip) == Addresses(s.conns, ip) > 0;
    AddressStepKeeps(s, i, stage, ReleaseIP(s.byIP, ip));
  }

  lemma ProceedKeeps(s: Server, i: nat, ok: bool)
    requires Inv(s) && Enabled(s, Proceed(i, ok))
    ensures Inv(Next(s, Proceed(i, ok)))
  {
    if s.conns[i].stage.Arrived? || s.conns[i].stage.SlotTaken? {
      AdmitKeeps(s, i, ok);
    } else {
      LeaveKeeps(s, i, ok);
    }
  }

  lemma AdmitKeeps(s: Server, i: nat, ok: bool)
    requires Inv(s) && Enabled(s, Proceed(i, ok)) && (s.conns[i].stage.Arrived? || s.conns[i].stage.SlotTaken?)
    ensures Inv(Next(s, Proceed(i, ok)))
  {
    var ip := s.conns[i].ip;
    if s.conns[i].stage.Arrived? {
      if s.slots < s.capacity {
        SlotStepKeeps(s, i, SlotTaken, s.slots + 1);
      } else {
        SlotStepKeeps(s, i, Refused, s.slots);
      }
    } else if s.maxPerIP > 0 && Count(s.byIP, ip) >= s.maxPerIP {
      SlotStepKeeps(s, i, OverLimit, s.slots);
    } else {
      AddressStepKeeps(s, i, Admitted, s.byIP[ip := Count(s.byIP, ip) + 1]);
    }
  }

  lemma LeaveKeeps(s: Server, i: nat, ok: bool)
    requires Inv(s) && Enabled(s, Proceed(i, ok)) && !s.conns[i].stage.Arrived? && !s.conns[i].stage.SlotTaken?
    ensures Inv(Next(s, Proceed(i, ok)))
  {
    match s.conns[i].stage
    case OverLimit => SlotStepKeeps(s, i, Refused, s.slots - 1);
    case Admitted => SlotStepKeeps(s, i, if ok then Connected else HandshakeFailed, s.slots);
    case HandshakeFailed => SlotStepKeeps(s, i, SlotBack, s.slots - 1);
    case SlotBack => ReleaseKeeps(s, i, Closed);
    case Connected => SlotStepKeeps(s, i, Disconnected, s.slots);
    case Disconnected => ReleaseKeeps(s, i, AddressBack);
    case AddressBack => SlotStepKeeps(s, i, Closed, s.slots - 1);
  }

  lemma NextKeeps(s: Server, e: Event)
    requires Inv(s) && Enabled(s, e)
    ensures Inv(Next(s, e))
  {
    match e
    case Arrive(ip) => ArriveKeeps(s, ip);
    case Proceed(i, ok) => ProceedKeeps(s, i, ok);
  }

  lemma {:induction false} RunKeeps(s: Server, events: seq<Event>)
    requires Inv(s)
    ensures Inv(Run(s, events))
    decreases |events|
  {
    if events != [] {
      if Enabled(s, events[0]) {
        NextKeeps(s, events[0]);
        RunKeeps(Next(s, events[0]), events[1..]);
      } else {
        RunKeeps(s, events[1..]);
      }
    }
  }

  // ---------- what follows for every interleaving ----------

  lemma {:induction false} RunKeepsLimits(s: Server, events: seq<Event>)
    ensures Run(s, events).capacity == s.capacity && Run(s, events).maxPerIP == s.maxPerIP
    decreases |events|
  {
    if events != [] {
      RunKeepsLimits(if Enabled(s, events[0]) then Next(s, events[0]) else s, events[1..]);
    }
  }

  /** Never more connections than slots, nor more of one address than allowed. */
  lemma WithinLimits(capacity: nat, maxPerIP: nat, events: seq<Event>, ip: IP)
    ensures var s := Run(Start(capacity, maxPerIP), events);
      && s.slots == Slots(s.conns) <= capacity
      && Count(s.byIP, ip) == Addresses(s.conns, ip)
      && (maxPerIP > 0 ==> Addresses(s.conns, ip) <= maxPerIP)
  {
    var s := Run(Start(capacity, maxPerIP), events);
    RunKeeps(Start(capacity, maxPerIP), events);
    RunKeepsLimits(Start(capacity, maxPerIP), events);
    assert Count(s.byIP, ip) == Addresses(s.conns, ip);
  }

  /** Giving a slot back never waits: whoever has to receive from the channel finds one in it. */
  lemma NeverWaits(capacity: nat, maxPerIP: nat, events: seq<Event>, i: nat, ok: bool)
    ensures var s := Run(Start(capacity, maxPerIP), events);
      i < |s.conns| && !Over(s.conns[i].stage) ==> Enabled(s, Proceed(i, ok))
  {
    var s := Run(Start(capacity, maxPerIP), events);
    RunKeeps(Start(capacity, maxPerIP), events);
    if i < |s.conns| {
      HoldersCount(s.conns, i);
    }
  }

  /** When every connection is over, nothing is left behind. */
  lemma NothingLeft(capacity: nat, maxPerIP: nat, events: seq<Event>)
    ensures var s := Run(Start(capacity, maxPerIP), events);
      (forall i :: 0 <= i < |s.conns| ==> Over(s.conns[i].stage)) ==> s.slots == 0 && s.byIP == map[]
  {
    var s := Run(Start(capacity, maxPerIP), events);
    RunKeeps(Start(capacity, maxPerIP), events);
    if forall i :: 0 <= i < |s.conns| ==> Over(s.conns[i].stage) {
      forall ip
        ensures ip !in s.byIP
      {
        NoHolders(s.conns, ip);
        assert Count(s.byIP, ip) == 0;
      }
      NoHolders(s.conns, "");
    }
  }

  lemma {:induction false} NoHolders(conns: seq<Conn>, ip: IP)
    requires forall i :: 0 <= i < |conns| ==> Over(conns[i].stage)
    ensures Slots(conns) == 0 && Addresses(conns, ip) == 0
    decreases |conns|
  {
    if conns != [] {
      NoHolders(conns[..|conns| - 1], ip);
    }
  }

  /** Every connection is over after at most six steps of its own. */
  function Remaining(stage: Stage): nat
  {
    match stage
    case Arrived => 6
    case SlotTaken => 5
    case OverLimit => 1
    case Refused => 0
    case Admitted => 4
    case HandshakeFailed => 2
    case SlotBack => 1
    case Connected => 3
    case Disconnected => 2
    case AddressBack => 1
    case Closed => 0
  }

  lemma GetsThrough(s: Server, i: nat, ok: bool)
    requires Enabled(s, Proceed(i, ok))
    ensures Remaining(Next(s, Proceed(i, ok)).conns[i].stage) < Remaining(s.conns[i].stage)
    ensures forall j :: 0 <= j < |s.conns| && j != i ==> Next(s, Proceed(i, ok)).conns[j] == s.conns[j]
  {
  }

  // ---------- who is admitted ----------

  /** No step of connection i. */
  predicate Others(events: seq<Event>, i: nat)
  {
    forall e :: e in events ==> !(e.Proceed? && e.i == i)
  }

  lemma {:induction false} RunParts(s: Server, a: seq<Event>, b: seq<Event>)
    ensures Run(s, a + b) == Run(Run(s, a), b)
    decreases |a|
  {
    if a == [] {
      assert a + b == b;
    } else {
      RunParts(if Enabled(s, a[0]) then Next(s, a[0]) else s, a[1..], b);
      assert (a + b)[0] == a[0] && (a + b)[1..] == a[1..] + b;
    }
  }

  /** A connection is there once it arrives, and holds nothing yet. */
  lemma Arrival(s: Server, ip: IP)
    ensures Run(s, [Arrive(ip)]) == s.(conns := s.conns + [Conn(ip, Arrived)])
    ensures !HoldsSlot(Conn(ip, Arrived)) && !HoldsAddress(Conn(ip, Arrived), ip)
  {
    var events := [Arrive(ip)];
    assert events[1..] == [];
    assert Enabled(s, events[0]);
  }

  /** A connection changes only by steps of its own. */
  lemma {:induction false} Untouched(s: Server, events: seq<Event>, i: nat)
    requires i < |s.conns| && Others(events, i)
    ensures i < |Run(s, events).conns| && Run(s, events).conns[i] == s.conns[i]
    decreases |events|
  {
    if events != [] {
      var next := if Enabled(s, events[0]) then Next(s, events[0]) else s;
      assert events[0] in events && forall e :: e in events[1..] ==> e in events;
      Untouched(next, events[1..], i);
    }
  }

  /** What a step of its own does to connection i, seen from what all connections hold. */
  ghost predicate Own(s: Server, i: nat, ok: bool, t: Server)
  {
    && i < |s.conns| && i < |t.conns| && t.conns[i].ip == s.conns[i].ip
    && match s.conns[i].stage
       case Arrived => t.conns[i].stage == if Slots(s.conns) < s.capacity then SlotTaken else Refused
       case SlotTaken =>
         t.conns[i].stage == if s.maxPerIP == 0 || Addresses(s.conns, s.conns[i].ip) < s.maxPerIP then Admitted
                             else OverLimit
       case OverLimit => t.conns[i].stage == Refused
       case Refused => t.conns[i].stage == Refused
       case Admitted => t.conns[i].stage == if ok then Connected else HandshakeFailed
       case _ => true
  }

  /** Some steps of others and then one of its own; sealed. */
  ghost predicate Goes(s: Server, i: nat, ok: bool, t: Server, u: Server)
  {
    forall x {:trigger Unseal(x)} :: x == s ==>
      && i < |x.conns| && i < |t.conns| && t.conns[i] == x.conns[i] && Own(t, i, ok, u)
      && Inv(u) && t.capacity == u.capacity == x.capacity && t.maxPerIP == u.maxPerIP == x.maxPerIP
  }

  lemma OwnStep(s: Server, i: nat, ok: bool)
    requires Inv(s) && i < |s.conns|
    ensures Own(s, i, ok, Run(s, [Proceed(i, ok)]))
  {
    var events := [Proceed(i, ok)];
    assert events[1..] == [];
    HoldersCount(s.conns, i);
    assert Count(s.byIP, s.conns[i].ip) == Addresses(s.conns, s.conns[i].ip);
  }

  /** t is the server after the events; sealed. */
  ghost predicate Leads(s: Server, events: seq<Event>, t: Server)
  {
    forall x {:trigger Unseal(x)} :: x == t ==> x == Run(s, events)
  }

  lemma LeadsIs(s: Server, events: seq<Event>, t: Server)
    ensures Leads(s, events, t) <==> t == Run(s, events)
  {
    assert Unseal(t) == t;
  }

  lemma LeadsOn(s: Server, a: seq<Event>, t: Server, b: seq<Event>, u: Server)
    requires Leads(s, a, t) && Leads(t, b, u)
    ensures Leads(s, a + b, u)
  {
    LeadsIs(s, a, t);
    LeadsIs(t, b, u);
    RunParts(s, a, b);
  }

  lemma NextOwnStep(s: Server, others: seq<Event>, i: nat, ok: bool, t: Server, u: Server)
    requires Inv(s) && i < |s.conns| && Others(others, i) && Leads(s, others, t) && Leads(t, [Proceed(i, ok)], u)
    ensures Goes(s, i, ok, t, u) && Inv(u) && i < |u.conns|
  {
    LeadsIs(s, others, t);
    LeadsIs(t, [Proceed(i, ok)], u);
    Untouched(s, others, i);
    RunKeeps(s, others);
    RunKeepsLimits(s, others);
    RunKeeps(t, [Proceed(i, ok)]);
    RunKeepsLimits(t, [Proceed(i, ok)]);
    OwnStep(t, i, ok);
  }

  lemma FromStart(capacity: nat, maxPerIP: nat, before: seq<Event>, s: Server)
    requires Leads(Start(capacity, maxPerIP), before, s)
    ensures Inv(s) && s.capacity == capacity && s.maxPerIP == maxPerIP && Leads(s, [], s)
  {
    LeadsIs(Start(capacity, maxPerIP), before, s);
    LeadsIs(s, [], s);
    RunKeeps(Start(capacity, maxPerIP), before);
    RunKeepsLimits(Start(capacity, maxPerIP), before);
  }

  /** There is a slot for connection i at one moment, and its address is below the limit at a later one. */
  predicate Fits(s: Server, t: Server, i: nat)
    requires i < |s.conns|
  {
    Slots(s.conns) < s.capacity && (s.maxPerIP == 0 || Addresses(t.conns, s.conns[i].ip) < s.maxPerIP)
  }

  /** Three steps of its own from arrival on. */
  lemma ThreeSteps(i: nat, oks: (bool, bool, bool), s0: Server, s1: Server, s2: Server, s3: Server, s4: Server,
                   s5: Server)
    requires i < |s0.conns| && s0.conns[i].stage.Arrived?
    requires Goes(s0, i, oks.0, s0, s1) && Goes(s1, i, oks.1, s2, s3) && Goes(s3, i, oks.2, s4, s5)
    ensures i < |s3.conns| && i < |s5.conns| && s3.conns[i].ip == s0.conns[i].ip
    ensures s3.conns[i] == Conn(s0.conns[i].ip, Admitted) <==> Fits(s0, s2, i)
    ensures s5.conns[i] == Conn(s0.conns[i].ip, if !Fits(s0, s2, i) then Refused
                                                else if oks.2 then Connected else HandshakeFailed)
  {
    assert Unseal(s0) == s0 && Unseal(s1) == s1 && Unseal(s3) == s3;
  }

  /**
   * In every run: a connection that has arrived and takes three steps of its own, at any moments, is admitted by the
   * second if and only if at the first of them fewer connections held a slot than there are, and at the second fewer
   * of its address held one than are allowed, if that is limited at all.  Then it gets connected exactly if its
   * handshake succeeds; otherwise it ends up refused and holds neither slot nor address.
   */
  lemma Admission(capacity: nat, maxPerIP: nat, before: seq<Event>, i: nat, mid: seq<Event>, late: seq<Event>,
                  oks: (bool, bool, bool), s0: Server, s1: Server, s2: Server, s3: Server, s4: Server, s5: Server)
    requires Leads(Start(capacity, maxPerIP), before, s0) && i < |s0.conns| && s0.conns[i].stage.Arrived?
    requires Leads(s0, [Proceed(i, oks.0)], s1) && Others(mid, i) && Leads(s1, mid, s2)
    requires Leads(s2, [Proceed(i, oks.1)], s3) && Others(late, i) && Leads(s3, late, s4)
    requires Leads(s4, [Proceed(i, oks.2)], s5)
    ensures Leads(Start(capacity, maxPerIP), before + [Proceed(i, oks.0)] + mid + [Proceed(i, oks.1)] + late
                                             + [Proceed(i, oks.2)], s5)
    ensures i < |s3.conns| && i < |s5.conns|
    ensures s3.conns[i] == Conn(s0.conns[i].ip, Admitted)
            <==> Slots(s0.conns) < capacity
                 && (maxPerIP == 0 || Addresses(s2.conns, s0.conns[i].ip) < maxPerIP)
    ensures s5.conns[i].stage == if !s3.conns[i].stage.Admitted? then Refused
                                 else if oks.2 then Connected else HandshakeFailed
    ensures s5.conns[i].stage.Refused? ==> !HoldsSlot(s5.conns[i]) && !HoldsAddress(s5.conns[i], s0.conns[i].ip)
  {
    FromStart(capacity, maxPerIP, before, s0);
    NextOwnStep(s0, [], i, oks.0, s0, s1);
    NextOwnStep(s1, mid, i, oks.1, s2, s3);
    NextOwnStep(s3, late, i, oks.2, s4, s5);
    ThreeSteps(i, oks, s0, s1, s2, s3, s4, s5);
    var start, a, b, c := Start(capacity, maxPerIP), [Proceed(i, oks.0)], [Proceed(i, oks.1)], [Proceed(i, oks.2)];
    LeadsOn(start, before, s0, a, s1);
    LeadsOn(start, before + a, s1, mid, s2);
    LeadsOn(start, before + a + mid, s2, b, s3);
    LeadsOn(start, before + a + mid + b, s3, late, s4);
    LeadsOn(start, before + a + mid + b + late, s4, c, s5);
  }
}
