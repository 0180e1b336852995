/** Connection lifecycle: Close, handleDisconnect, reconnectLoop and
    resizeViaReconnect as steps, each one a section under closeMu, interleaved by
    any number of threads. */
module Lifecycle {

  // ---------- what closeMu protects ----------

  /** closed, reconnecting, the generation of the done channel, and the log of the
      generations that close(done) was applied to. */
  datatype Flags = Flags(closed: bool, reconnecting: bool, gen: nat, closes: seq<nat>)

  function Initial(): Flags { Flags(false, false, 0, []) }

  predicate Busy(f: Flags) { f.closed || f.reconnecting }

  function CloseDone(f: Flags): Flags { f.(closes := f.closes + [f.gen]) }

  function Closing(f: Flags): Flags {
    if Busy(f) then f else CloseDone(f).(closed := true)
  }

  function Disconnecting(f: Flags, retry: bool): Flags {
    if Busy(f) then f
    else if retry then CloseDone(f).(reconnecting := true)
    else CloseDone(f).(closed := true)
  }

  function Resizing(f: Flags): Flags {
    if Busy(f) then f else CloseDone(f).(reconnecting := true)
  }

  function Resetting(f: Flags): Flags { f.(closed := false, gen := f.gen + 1) }

  /** The locked sections as methods on the client's fields. */
  class Client {
    var closed: bool
    var reconnecting: bool
    var done: nat
    var closes: seq<nat>

    ghost function Contents(): Flags
      reads this
    {
      Flags(closed, reconnecting, done, closes)
    }

    constructor ()
      ensures Contents() == Initial()
    {
      closed, reconnecting, done, closes := false, false, 0, [];
    }

    method Close()
      modifies this
      ensures Contents() == Closing(old(Contents()))
    {
      if closed || reconnecting {
        return;
      }
      closed := true;
      closes := closes + [done];
    }

    method HandleDisconnect(retry: bool) returns (report: bool, spawn: bool)
      modifies this
      ensures Contents() == Disconnecting(old(Contents()), retry)
      ensures report == (!old(Busy(Contents())) && !retry) && spawn == (!old(Busy(Contents())) && retry)
    {
      report, spawn := false, false;
      if closed || reconnecting {
        return;
      }
      closes := closes + [done];
      if retry {
        reconnecting := true;
        spawn := true;
      } else {
        closed := true;
        report := true;
      }
    }

    method ResizeViaReconnect() returns (drive: bool)
      modifies this
      ensures Contents() == Resizing(old(Contents())) && drive == !old(Busy(Contents()))
    {
      if closed || reconnecting {
        return false;
      }
      reconnecting := true;
      closes := closes + [done];
      drive := true;
    }

    method ResetForReconnect()
      modifies this
      ensures Contents() == Resetting(old(Contents()))
    {
      closed := false;
      done := done + 1;
    }
  }

  // ---------- threads ----------

  /** Where a thread stands; an absent thread is idle.
      Reporting: about to call OnDisconnect.  Spawning: about to start reconnectLoop.
      Looping: at the head of the retry loop.  Resetting, Connecting: inside it.
      Exhausted: after the loop.  ReportingExhausted: about to call OnDisconnect there.
      Leaving: about to clear reconnecting.  The Resize states are resizeViaReconnect's. */
  datatype Pc =
    | Reporting
    | Spawning
    | Looping(attempt: nat)
    | Sleeping(attempt: nat)
    | Connecting(attempt: nat)
    | Exhausted(attempt: nat)
    | ReportingExhausted
    | Leaving
    | ResizeWaiting
    | ResizeConnecting
    | ResizeFailed
    | ResizeSucceeded

  /** A thread that owns the reconnecting flag. */
  predicate Driver(pc: Pc) { !pc.Reporting? }

  /** A thread that still has to call OnDisconnect, having set closed. */
  predicate OwesReport(pc: Pc) { pc.Reporting? || pc.ReportingExhausted? }

  /** Drivers before resetForReconnect: the current generation is closed. */
  predicate BeforeReset(pc: Pc) {
    pc.Spawning? || (pc.Looping? && pc.attempt == 1) || (pc.Sleeping? && pc.attempt == 1) ||
    (pc.Exhausted? && pc.attempt == 1) || pc.ResizeWaiting?
  }

  /** The connection that is up and was not reported lost, by the generation that its
      Connect found. */
  datatype Link = Down | Up(gen: nat)

  /** The whole system: the flags, the threads, the number of OnDisconnect calls,
      whether a driver gave up after a reset, and the live link. */
  datatype System = System(flags: Flags, threads: map<nat, Pc>, reports: nat, orphaned: bool, link: Link)

  /** One scheduling decision.  Call events start on an idle thread; a disconnect is
      reported by a goroutine of generation of, perhaps an earlier one.  Advance moves a
      thread by one section, ok deciding how Connect ends and child naming the goroutine
      that a spawn starts. */
  datatype Event =
    | CallClose
    | CallDisconnect(t: nat, of: nat, retry: bool)
    | CallResize(t: nat)
    | Advance(t: nat, ok: bool, child: nat)

  function At(s: System, t: nat, pc: Pc): System { s.(threads := s.threads[t := pc]) }

  function Idle(s: System, t: nat): System { s.(threads := s.threads - {t}) }

  function Next(s: System, e: Event, max: int): System {
    match e
    case CallClose => s.(flags := Closing(s.flags), link := if Busy(s.flags) then s.link else Down)
    case CallDisconnect(t, of, retry) =>
      if t in s.threads then s
      else
        var s1 := s.(flags := Disconnecting(s.flags, retry), link := if s.link == Up(of) then Down else s.link);
        if Busy(s.flags) then s1
        else At(s1, t, if retry then Spawning else Reporting)
    case CallResize(t) =>
      if t in s.threads || Busy(s.flags) then s
      else At(s.(flags := Resizing(s.flags), link := Down), t, ResizeWaiting)
    case Advance(t, ok, child) =>
      if t !in s.threads then s else Section(s, t, ok, child, max)
  }

  /** The next section of thread t. */
  function Section(s: System, t: nat, ok: bool, child: nat, max: int): System
    requires t in s.threads
  {
    match s.threads[t]
    case Reporting => Idle(s.(reports := s.reports + 1), t)
    case Spawning => if child in s.threads then s else At(Idle(s, t), child, Looping(1))
    case Looping(n) => At(s, t, if max == 0 || n <= max then Sleeping(n) else Exhausted(n))
    case Sleeping(n) => At(s.(flags := Resetting(s.flags), link := Down), t, Connecting(n))
    case Connecting(n) =>
      if ok then At(s.(link := Up(s.flags.gen)), t, Leaving)
      else At(s.(flags := Closing(s.flags)), t, Looping(n + 1))
    case Exhausted(n) => At(s.(flags := s.flags.(closed := true), orphaned := n > 1), t, ReportingExhausted)
    case ReportingExhausted => At(s.(reports := s.reports + 1), t, Leaving)
    case Leaving => Idle(s.(flags := s.flags.(reconnecting := false)), t)
    case ResizeWaiting => At(s.(flags := Resetting(s.flags), link := Down), t, ResizeConnecting)
    case ResizeConnecting =>
      if ok then At(s.(link := Up(s.flags.gen)), t, ResizeSucceeded)
      else At(s.(flags := Closing(s.flags)), t, ResizeFailed)
    case ResizeFailed =>
      At(s.(flags := s.flags.(reconnecting := false, closed := true), orphaned := true), t, Reporting)
    case ResizeSucceeded => Idle(s.(flags := s.flags.(reconnecting := false)), t)
  }

  /** After the user's Connect: nothing closed, no thread inside, the link up. */
  function Start(): System { System(Initial(), map[], 0, false, Up(0)) }

  function Execute(s: System, es: seq<Event>, max: int): System
    decreases es
  {
    if es == [] then s else Execute(Next(s, es[0], max), es[1..], max)
  }

  // ---------- safety ----------

  /** The driver's place is consistent with the flags. */
  predicate DriverOk(s: System, pc: Pc) {
    match pc
    case ReportingExhausted => s.flags.closed
    case Leaving => s.flags.closed <==> s.reports == 1
    case Looping(n) => !s.flags.closed && n >= 1
    case Sleeping(n) => !s.flags.closed && n >= 1
    case Connecting(n) => !s.flags.closed && n >= 1
    case Exhausted(n) => !s.flags.closed && n >= 1
    case _ => !s.flags.closed
  }

  ghost predicate ClosesOk(closes: seq<nat>, gen: nat) {
    && (forall i :: 0 <= i < |closes| ==> closes[i] <= gen)
    && (forall i, j :: 0 <= i < j < |closes| ==> closes[i] != closes[j])
  }

  /** Thread d is the one driver and thread r the one owing a report; -1 is none. */
  ghost predicate Roles(threads: map<nat, Pc>, d: int, r: int) {
    && (d >= 0 ==> d in threads) && (forall t :: t in threads ==> (Driver(threads[t]) <==> t == d))
    && (r >= 0 ==> r in threads) && (forall t :: t in threads ==> (OwesReport(threads[t]) <==> t == r))
  }

  ghost predicate Inv(s: System, d: int, r: int) {
    && Roles(s.threads, d, r)
    && (s.flags.reconnecting <==> d >= 0)
    && s.reports <= 1 && (s.reports == 1 ==> r < 0)
    && (r >= 0 || s.reports == 1 ==> s.flags.closed)
    && (d >= 0 ==> DriverOk(s, s.threads[d]))
    && ClosesOk(s.flags.closes, s.flags.gen)
    && (s.flags.closed ==> (s.flags.gen !in s.flags.closes <==> s.orphaned))
    && (s.link.Up? ==> s.link.gen == s.flags.gen)
    && (!s.flags.closed ==> !s.orphaned && (s.flags.gen in s.flags.closes <==> d >= 0 && BeforeReset(s.threads[d])))
  }

  lemma {:induction false} ClosesAppend(f: Flags)
    requires ClosesOk(f.closes, f.gen) && f.gen !in f.closes
    ensures var f' := CloseDone(f); ClosesOk(f'.closes, f'.gen) && f'.gen in f'.closes
  {
  }

  /** A fresh generation is not closed. */
  lemma {:induction false} ClosesFresh(f: Flags)
    requires ClosesOk(f.closes, f.gen)
    ensures var f' := Resetting(f); ClosesOk(f'.closes, f'.gen) && f'.gen !in f'.closes
  {
  }

  /** The roles after thread t's section. */
  function Roles'(s: System, t: nat, child: nat, d: int, r: int): (int, int)
    requires t in s.threads
  {
    match s.threads[t]
    case Reporting => (d, -1)
    case Spawning => (if child in s.threads then d else child, r)
    case Exhausted(_) => (d, t)
    case ReportingExhausted => (d, -1)
    case Leaving => (-1, r)
    case ResizeFailed => (-1, t)
    case ResizeSucceeded => (-1, r)
    case _ => (d, r)
  }

  lemma {:induction false} SectionKeepsRoles(s: System, t: nat, ok: bool, child: nat, max: int, d: int, r: int)
    requires Inv(s, d, r) && t in s.threads
    ensures Roles(Section(s, t, ok, child, max).threads, Roles'(s, t, child, d, r).0, Roles'(s, t, child, d, r).1)
  {
    hide ClosesOk, Closing, Resetting, BeforeReset;
  }

  lemma {:induction false} SectionKeepsInv(s: System, t: nat, ok: bool, child: nat, max: int, d: int, r: int)
    returns (d': int, r': int)
    requires Inv(s, d, r) && t in s.threads
    ensures Inv(Section(s, t, ok, child, max), d', r')
  {
    d', r' := Roles'(s, t, child, d, r).0, Roles'(s, t, child, d, r).1;
    SectionKeepsRoles(s, t, ok, child, max, d, r);
    ClosesFresh(s.flags);
    assert (Driver(s.threads[t]) <==> t == d) && (OwesReport(s.threads[t]) <==> t == r);
    hide Roles, ClosesOk;
  }

  lemma {:induction false} NextKeepsInv(s: System, e: Event, max: int, d: int, r: int) returns (d': int, r': int)
    requires Inv(s, d, r)
    ensures Inv(Next(s, e, max), d', r')
  {
    d', r' := d, r;
    if !Busy(s.flags) {
      ClosesAppend(s.flags);
    }
    match e
    case CallClose =>
    case CallDisconnect(t, _, retry) =>
      if t !in s.threads && !Busy(s.flags) {
        if retry { d' := t; } else { r' := t; }
      }
    case CallResize(t) =>
      if t !in s.threads && !Busy(s.flags) { d' := t; }
    case Advance(t, ok, child) =>
      if t in s.threads { d', r' := SectionKeepsInv(s, t, ok, child, max, d, r); }
  }

  lemma {:induction false} RunKeepsInv(s: System, es: seq<Event>, max: int, d: int, r: int) returns (d': int, r': int)
    requires Inv(s, d, r)
    ensures Inv(Execute(s, es, max), d', r')
    decreases es
  {
    d', r' := d, r;
    if es != [] {
      d', r' := NextKeepsInv(s, es[0], max, d, r);
      hide Inv, Next;
      d', r' := RunKeepsInv(Next(s, es[0], max), es[1..], max, d', r');
    }
  }

  lemma {:induction false} Reachable(es: seq<Event>, max: int) returns (d: int, r: int)
    ensures Inv(Execute(Start(), es, max), d, r)
  {
    d, r := RunKeepsInv(Start(), es, max, -1, -1);
  }

  /** In every interleaving: each done channel is closed at most once, at most one
      thread drives a reconnect and it does exactly while reconnecting is set, and
      OnDisconnect fires at most once, after closed was set. */
  lemma {:induction false} Safety(es: seq<Event>, max: int)
    ensures var s := Execute(Start(), es, max);
            && (forall i, j :: 0 <= i < j < |s.flags.closes| ==> s.flags.closes[i] != s.flags.closes[j])
            && (forall t, u :: t in s.threads && u in s.threads && Driver(s.threads[t]) && Driver(s.threads[u]) ==> t == u)
            && (s.flags.reconnecting <==> exists t :: t in s.threads && Driver(s.threads[t]))
            && s.reports <= 1 && (s.reports == 1 ==> s.flags.closed)
            && (s.link.Up? ==> s.link.gen == s.flags.gen)
  {
    var d, r := Reachable(es, max);
  }

  predicate Ended(s: System) { s.flags.closed && !s.flags.reconnecting }

  /** Closed and not reconnecting is final: no event changes a flag, opens a new
      generation or closes one. */
  lemma {:induction false} EndedIsFinal(es: seq<Event>, e: Event, max: int)
    requires Ended(Execute(Start(), es, max))
    ensures Next(Execute(Start(), es, max), e, max).flags == Execute(Start(), es, max).flags
  {
    var d, r := Reachable(es, max);
  }

  /** The done channel of an ended connection is closed unless a driver gave up after
      it had already made a fresh one. */
  lemma {:induction false} DoneClosedUnlessOrphaned(es: seq<Event>, max: int)
    ensures var s := Execute(Start(), es, max);
            Ended(s) ==> (s.flags.gen in s.flags.closes <==> !s.orphaned)
  {
    var d, r := Reachable(es, max);
  }

  /** What a thread's attempt number can be, for the number of attempts allowed. */
  ghost predicate AttemptOk(pc: Pc, max: int) {
    match pc
    case Looping(n) => n >= 1 && (max > 0 ==> n <= max + 1) && (max < 0 ==> n == 1)
    case Sleeping(n) => n >= 1 && (max == 0 || n <= max)
    case Connecting(n) => n >= 1 && (max == 0 || n <= max)
    case Exhausted(n) => max != 0 && n == if max < 0 then 1 else max + 1
    case _ => true
  }

  ghost predicate AttemptsOk(s: System, max: int) { forall t :: t in s.threads ==> AttemptOk(s.threads[t], max) }

  lemma {:induction false} NextKeepsAttempts(s: System, e: Event, max: int)
    requires AttemptsOk(s, max)
    ensures AttemptsOk(Next(s, e, max), max)
  {
    hide Closing, Disconnecting, Resizing, Section, AttemptOk;
    if e.Advance? {
      if e.t in s.threads { SectionKeepsAttempts(s, e.t, e.ok, e.child, max); }
    } else {
      Fresh(max);
    }
  }

  lemma {:induction false} Fresh(max: int)
    ensures AttemptOk(Spawning, max) && AttemptOk(Reporting, max) && AttemptOk(ResizeWaiting, max)
  {
  }

  lemma {:induction false} SectionKeepsAttempts(s: System, t: nat, ok: bool, child: nat, max: int)
    requires t in s.threads && AttemptsOk(s, max)
    ensures AttemptsOk(Section(s, t, ok, child, max), max)
  {
    assert AttemptOk(s.threads[t], max);
    NewAttempt(s.threads[t], max);
    hide Closing, Resetting, AttemptOk;
  }

  lemma {:induction false} NewAttempt(pc: Pc, max: int)
    requires AttemptOk(pc, max)
    ensures AttemptOk(Looping(1), max) && AttemptOk(Leaving, max) && AttemptOk(ReportingExhausted, max) && AttemptOk(Reporting, max)
    ensures AttemptOk(ResizeConnecting, max) && AttemptOk(ResizeSucceeded, max) && AttemptOk(ResizeFailed, max)
    ensures pc.Looping? ==> AttemptOk(if max == 0 || pc.attempt <= max then Sleeping(pc.attempt) else Exhausted(pc.attempt), max)
    ensures pc.Sleeping? ==> AttemptOk(Connecting(pc.attempt), max)
    ensures pc.Connecting? ==> AttemptOk(Looping(pc.attempt + 1), max)
  {
  }

  lemma {:induction false} RunKeepsAttempts(s: System, es: seq<Event>, max: int)
    requires AttemptsOk(s, max)
    ensures AttemptsOk(Execute(s, es, max), max)
    decreases es
  {
    hide Next, AttemptsOk;
    if es != [] {
      NextKeepsAttempts(s, es[0], max);
      RunKeepsAttempts(Next(s, es[0], max), es[1..], max);
    }
  }

  /** In every interleaving: no more attempts are made than are allowed, none where the
      number is negative, any number where it is zero; and the loop gives up only after
      all that are allowed. */
  lemma {:induction false} AttemptsBounded(es: seq<Event>, max: int, t: nat)
    requires t in Execute(Start(), es, max).threads
    ensures var pc := Execute(Start(), es, max).threads[t];
            && (pc.Connecting? ==> pc.attempt >= 1 && (max != 0 ==> pc.attempt <= max))
            && (pc.Exhausted? ==> max != 0 && pc.attempt == if max < 0 then 1 else max + 1)
  {
    RunKeepsAttempts(Start(), es, max);
    hide Execute;
  }

  lemma {:induction false} ExecuteCons(s: System, e: Event, es: seq<Event>, max: int)
    ensures Execute(s, [e] + es, max) == Execute(Next(s, e, max), es, max)
  {
    assert ([e] + es)[1..] == es;
  }

  lemma {:induction false} ExecuteConcat(s: System, a: seq<Event>, b: seq<Event>, max: int)
    ensures Execute(s, a + b, max) == Execute(Execute(s, a, max), b, max)
    decreases a
  {
    hide Next;
    if a == [] {
      assert a + b == b;
    } else {
      assert a + b == [a[0]] + (a[1..] + b);
      ExecuteCons(s, a[0], a[1..] + b, max);
      ExecuteConcat(Next(s, a[0], max), a[1..], b, max);
    }
  }

  lemma {:induction false} ExecuteTwo(s: System, e: Event, f: Event, max: int)
    ensures Execute(s, [e, f], max) == Next(Next(s, e, max), f, max)
  {
    hide Next;
    ExecuteCons(s, e, [f], max);
    ExecuteCons(Next(s, e, max), f, [], max);
    assert [f] + [] == [f] && [e] + [f] == [e, f];
  }

  lemma {:induction false} ExecuteOne(s: System, e: Event, max: int)
    ensures Execute(s, [e], max) == Next(s, e, max)
  {
    hide Next;
    ExecuteCons(s, e, [], max);
    assert [e] + [] == [e];
  }

  const GO := Advance(1, true, 0)

  /** A lost connection whose first attempt is about to connect. */
  const LOST := [CallDisconnect(0, 0, true), Advance(0, true, 1)] + [GO, GO]

  function Retrying(pc: Pc, link: Link): System { System(Flags(false, true, 1, [0]), map[1 := pc], 0, false, link) }

  lemma {:induction false} LostRetries(max: nat)
    ensures Execute(Start(), LOST, max) == Retrying(Connecting(1), Down)
  {
    hide Execute;
    var s := System(Flags(false, true, 0, [0]), map[1 := Looping(1)], 0, false, Down);
    assert Next(Next(Start(), CallDisconnect(0, 0, true), max), Advance(0, true, 1), max) == s;
    assert Next(Next(s, GO, max), GO, max) == Retrying(Connecting(1), Down);
    hide *;
    ExecuteConcat(Start(), [CallDisconnect(0, 0, true), Advance(0, true, 1)], [GO, GO], max);
    ExecuteTwo(Start(), CallDisconnect(0, 0, true), Advance(0, true, 1), max);
    ExecuteTwo(s, GO, GO, max);
  }

  /** With one attempt allowed and that attempt failing, the connection ends, its
      disconnect is reported, and the done channel handed out is never closed. */
  lemma {:induction false} ExhaustedLeavesDoneOpen()
    ensures var s := Execute(Start(), LOST + ([Advance(1, false, 0), GO] + ([GO, GO] + [GO])), 1);
            Ended(s) && s.threads == map[] && s.reports == 1 && s.flags.gen !in s.flags.closes
  {
    hide *;
    LostRetries(1);
    ExhaustedEnds();
    var s := Retrying(Connecting(1), Down);
    var given := Next(Next(s, Advance(1, false, 0), 1), GO, 1);
    var reported := Next(Next(given, GO, 1), GO, 1);
    ExecuteConcat(Start(), LOST, [Advance(1, false, 0), GO] + ([GO, GO] + [GO]), 1);
    ExecuteConcat(s, [Advance(1, false, 0), GO], [GO, GO] + [GO], 1);
    ExecuteTwo(s, Advance(1, false, 0), GO, 1);
    ExecuteConcat(given, [GO, GO], [GO], 1);
    ExecuteTwo(given, GO, GO, 1);
    ExecuteOne(reported, GO, 1);
  }

  lemma {:induction false} ExhaustedEnds()
    ensures var given := Next(Next(Retrying(Connecting(1), Down), Advance(1, false, 0), 1), GO, 1);
            var s := Next(Next(Next(given, GO, 1), GO, 1), GO, 1);
            Ended(s) && s.threads == map[] && s.reports == 1 && s.flags.gen !in s.flags.closes
  {
    var given := Next(Next(Retrying(Connecting(1), Down), Advance(1, false, 0), 1), GO, 1);
    assert given == Retrying(Exhausted(2), Down);
    assert Next(Next(given, GO, 1), GO, 1) == System(Flags(true, true, 1, [0]), map[1 := Leaving], 1, true, Down);
  }

  /** The link is down and nobody reconnects or has reported it. */
  predicate Unattended(s: System) { s.link.Down? && !Busy(s.flags) }

  /** A lost link goes unattended exactly when a driver hands over a connection that
      was lost between its Connect and the clearing of the flag. */
  lemma {:induction false} UnattendedExactlyAtHandover(es: seq<Event>, e: Event, max: int)
    requires !Unattended(Execute(Start(), es, max))
    ensures var s := Execute(Start(), es, max);
            Unattended(Next(s, e, max)) <==>
              s.link.Down? && !s.flags.closed && e.Advance? && e.t in s.threads && (s.threads[e.t].Leaving? || s.threads[e.t].ResizeSucceeded?)
  {
    var d, r := Reachable(es, max);
  }

  /** It does happen: the new connection is lost again before the flag is cleared. */
  lemma {:induction false} LinkGoesUnattended(max: nat)
    ensures Unattended(Execute(Start(), LOST + [GO] + [CallDisconnect(2, 1, true), GO], max))
  {
    hide *;
    LostRetries(max);
    LostAtHandover(max);
    var s := Retrying(Connecting(1), Down);
    ExecuteConcat(Start(), LOST + [GO], [CallDisconnect(2, 1, true), GO], max);
    ExecuteConcat(Start(), LOST, [GO], max);
    ExecuteOne(s, GO, max);
    ExecuteTwo(Next(s, GO, max), CallDisconnect(2, 1, true), GO, max);
  }

  lemma {:induction false} LostAtHandover(max: int)
    ensures var s := Next(Retrying(Connecting(1), Down), GO, max);
            Unattended(Next(Next(s, CallDisconnect(2, 1, true), max), GO, max))
  {
    assert Next(Retrying(Connecting(1), Down), GO, max) == Retrying(Leaving, Up(1));
    assert Next(Retrying(Leaving, Up(1)), CallDisconnect(2, 1, true), max) == Retrying(Leaving, Down);
  }

  // ---------- reports that come late ----------

  /** A live connection that nobody is closing or replacing is ended by a report of any
      connection, also of an earlier one: its done channel is closed, and it is given up
      or replaced although it is up. */
  lemma {:induction false} AnyReportEnds(es: seq<Event>, max: int, t: nat, of: nat, retry: bool)
    requires t !in Execute(Start(), es, max).threads
    ensures var s := Execute(Start(), es, max);
            var s' := Next(s, CallDisconnect(t, of, retry), max);
            && (s'.flags == s.flags <==> Busy(s.flags))
            && (s.link.Up? && of != s.link.gen ==> s'.link == s.link)
            && (s.link.Up? && !Busy(s.flags) ==>
                  && s.link.gen !in s.flags.closes && s.link.gen in s'.flags.closes && Busy(s'.flags)
                  && s'.threads == s.threads[t := if retry then Spawning else Reporting])
  {
    var d, r := Reachable(es, max);
  }

  /** It does happen: after a reconnect, a goroutine of the first connection reports, the
      user is told of a disconnect, and the new connection is up. */
  lemma {:induction false} LateReportEndsLiveLink(max: nat)
    ensures var s := Execute(Start(), LOST + [GO, GO] + [CallDisconnect(2, 0, false), Advance(2, true, 0)], max);
            Ended(s) && s.reports == 1 && s.link == Up(1) && s.threads == map[]
  {
    hide *;
    LostRetries(max);
    LateReport(max);
    var s := Retrying(Connecting(1), Down);
    ExecuteConcat(Start(), LOST + [GO, GO], [CallDisconnect(2, 0, false), Advance(2, true, 0)], max);
    ExecuteConcat(Start(), LOST, [GO, GO], max);
    ExecuteTwo(s, GO, GO, max);
    ExecuteTwo(Next(Next(s, GO, max), GO, max), CallDisconnect(2, 0, false), Advance(2, true, 0), max);
  }

  lemma {:induction false} LateReport(max: nat)
    ensures var s := Next(Next(Next(Next(Retrying(Connecting(1), Down), GO, max), GO, max), CallDisconnect(2, 0, false), max), Advance(2, true, 0), max);
            Ended(s) && s.reports == 1 && s.link == Up(1) && s.threads == map[]
  {
    var s := System(Flags(false, false, 1, [0]), map[], 0, false, Up(1));
    assert Next(Next(Retrying(Connecting(1), Down), GO, max), GO, max) == s;
    assert Next(s, CallDisconnect(2, 0, false), max) == System(Flags(true, false, 1, [0, 1]), map[2 := Reporting], 0, false, Up(1));
  }
}
