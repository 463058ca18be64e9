/**
 The distributed lock with several tickets (lock/lock.go) over MySQL's GET_LOCK, IS_USED_LOCK and RELEASE_LOCK,
 which give a name to one connection at a time and may be taken again by the connection that has it.
 */
module TicketLock {
  import opened Options

  /** A connection holds a name as often as it took it. */
  datatype Hold = Hold(conn: nat, count: nat)

  /** The tickets of one lock name that are taken, and the id of the next connection. */
  datatype Server = Server(holds: map<nat, Hold>, nextConn: nat)

  /** `n` is the ticket last tried. */
  datatype Process = Process(conn: Option<nat>, n: nat)

  // ---------------------------------------------------------------------------------------------
  // Queries
  // ---------------------------------------------------------------------------------------------

  function GetLock(sv: Server, conn: nat, ticket: nat): (Server, bool) {
    if ticket !in sv.holds then (sv.(holds := sv.holds[ticket := Hold(conn, 1)]), true)
    else if sv.holds[ticket].conn == conn then
      (sv.(holds := sv.holds[ticket := Hold(conn, sv.holds[ticket].count + 1)]), true)
    else (sv, false)
  }

  /** The release of a name is refused unless the connection has it. */
  function ReleaseLock(sv: Server, conn: nat, ticket: nat): (Server, bool) {
    if ticket !in sv.holds || sv.holds[ticket].conn != conn then (sv, false)
    else if sv.holds[ticket].count <= 1 then (sv.(holds := sv.holds - {ticket}), true)
    else (sv.(holds := sv.holds[ticket := Hold(conn, sv.holds[ticket].count - 1)]), true)
  }

  /** A connection that ends gives up all its names. */
  function Disconnect(sv: Server, conn: nat): Server {
    sv.(holds := map t | t in sv.holds && sv.holds[t].conn != conn :: sv.holds[t])
  }

  // ---------------------------------------------------------------------------------------------
  // The operations of a process
  // ---------------------------------------------------------------------------------------------

  function CloseConn(sv: Server, p: Process): (Server, Process) {
    if p.conn.None? then (sv, p) else (Disconnect(sv, p.conn.value), p.(conn := None))
  }

  datatype Attempt = Granted | Refused | NoConnection

  /** One round of the loop in Lock: the connection cannot be opened or the query fails when so told. */
  function Try(sv: Server, p: Process, openFails: bool, queryFails: bool): (Server, Process, Attempt) {
    if p.conn.None? && openFails then (sv, p, NoConnection)
    else
      var (sv1, p1) := if p.conn.Some? then (sv, p) else (sv.(nextConn := sv.nextConn + 1), p.(conn := Some(sv.nextConn)));
      if queryFails then
        var (sv2, p2) := CloseConn(sv1, p1);
        (sv2, p2.(n := p2.n + 1), Refused)
      else
        var (sv2, granted) := GetLock(sv1, p1.conn.value, p1.n);
        if granted then (sv2, p1, Granted) else (sv2, p1.(n := p1.n + 1), Refused)
  }

  /** Lock from ticket p.n on; the sets say at which tickets something fails. */
  function LockFrom(sv: Server, p: Process, tickets: nat, openFails: set<nat>, queryFails: set<nat>)
    : (Server, Process, bool)
    decreases tickets - p.n
  {
    if p.n >= tickets then (sv, p, false)
    else
      var (sv1, p1, attempt) := Try(sv, p, p.n in openFails, p.n in queryFails);
      match attempt
      case Granted => (sv1, p1, true)
      case NoConnection => (sv1, p1, false)
      case Refused => LockFrom(sv1, p1, tickets, openFails, queryFails)
  }

  /** What IsLockedByMe answers when its query succeeds. */
  predicate Holds(sv: Server, p: Process) {
    p.conn.Some? && p.n in sv.holds && sv.holds[p.n].conn == p.conn.value
  }

  lemma TryMovesOn(sv: Server, p: Process, openFails: bool, queryFails: bool)
    ensures Try(sv, p, openFails, queryFails).2 == Refused ==> Try(sv, p, openFails, queryFails).1.n == p.n + 1
  {
  }

  /** A Lock that succeeds, whatever failed before, leaves the process with the ticket it says. */
  lemma {:induction false} LockedMeansHeld(sv: Server, p: Process, tickets: nat, openFails: set<nat>,
                                           queryFails: set<nat>)
    ensures var (sv1, p1, locked) := LockFrom(sv, p, tickets, openFails, queryFails);
      locked ==> Holds(sv1, p1) && p.n <= p1.n < tickets
    decreases tickets - p.n
  {
    if p.n < tickets {
      var (sv1, p1, attempt) := Try(sv, p, p.n in openFails, p.n in queryFails);
      if attempt == Refused {
        LockedMeansHeld(sv1, p1, tickets, openFails, queryFails);
      }
    }
  }

  // ---------------------------------------------------------------------------------------------
  // An undisturbed TryLock
  // ---------------------------------------------------------------------------------------------

  function Free(sv: Server, tickets: nat): set<nat> {
    set t | 0 <= t < tickets && t !in sv.holds
  }

  function Taken(sv: Server, tickets: nat): set<nat> {
    set t | 0 <= t < tickets && t in sv.holds
  }

  /** A process holds none of the tickets. */
  ghost predicate HoldsNone(sv: Server, p: Process) {
    p.conn.Some? ==> p.conn.value < sv.nextConn && forall t :: t in sv.holds ==> sv.holds[t].conn != p.conn.value
  }

  /** Connections of the server's tickets were opened before the next one. */
  ghost predicate KnownConnections(sv: Server) {
    forall t :: t in sv.holds ==> sv.holds[t].conn < sv.nextConn
  }

  /** Without failures tickets are tried in order; the first free one is taken, the others stay as they are. */
  lemma {:induction false} TakesLeastFree(sv: Server, p: Process, tickets: nat)
    requires HoldsNone(sv, p) && KnownConnections(sv)
    ensures var (sv1, p1, locked) := LockFrom(sv, p, tickets, {}, {});
      && (locked <==> exists t: nat :: p.n <= t < tickets && t !in sv.holds)
      && (locked ==>
          && p.n <= p1.n < tickets && p1.n !in sv.holds && p1.conn.Some?
          && sv1.holds == sv.holds[p1.n := Hold(p1.conn.value, 1)]
          && forall t :: p.n <= t < p1.n ==> t in sv.holds)
      && (!locked ==> sv1.holds == sv.holds)
    decreases tickets - p.n
  {
    if p.n < tickets {
      var (sv1, p1, attempt) := Try(sv, p, false, false);
      if attempt == Refused {
        TakesLeastFree(sv1, p1, tickets);
      }
    }
  }

  lemma {:induction false} CountTickets(sv: Server, tickets: nat)
    ensures |Taken(sv, tickets)| + |Free(sv, tickets)| == tickets
  {
    if tickets > 0 {
      CountTickets(sv, tickets - 1);
      if tickets - 1 in sv.holds {
        assert Taken(sv, tickets) == Taken(sv, tickets - 1) + {tickets - 1};
        assert Free(sv, tickets) == Free(sv, tickets - 1);
      } else {
        assert Free(sv, tickets) == Free(sv, tickets - 1) + {tickets - 1};
        assert Taken(sv, tickets) == Taken(sv, tickets - 1);
      }
    }
  }

  /**
   A TryLock that nothing disturbs, by a process that holds no ticket, succeeds exactly when others hold fewer
   tickets than there are, and takes the least free one; the process then holds it.
   */
  lemma TryLockSucceedsExactlyWhen(sv: Server, p: Process, tickets: nat)
    requires HoldsNone(sv, p) && KnownConnections(sv)
    ensures var (sv1, p1, locked) := LockFrom(sv, p.(n := 0), tickets, {}, {});
      && (locked <==> |Taken(sv, tickets)| < tickets)
      && (locked ==> Holds(sv1, p1) && p1.n in Free(sv, tickets) && forall t :: t in Free(sv, tickets) ==> p1.n <= t)
  {
    hide LockFrom;
    TakesLeastFree(sv, p.(n := 0), tickets);
    CountTickets(sv, tickets);
    if LockFrom(sv, p.(n := 0), tickets, {}, {}).2 {
      var t: nat :| t < tickets && t !in sv.holds;
      assert t in Free(sv, tickets);
    } else {
      assert Free(sv, tickets) == {};
    }
  }

  // ---------------------------------------------------------------------------------------------
  // Any interleaving
  // ---------------------------------------------------------------------------------------------

  /** Processes may run their operations at the same time, one query after the other. */
  datatype System = System(server: Server, processes: seq<Process>)

  /** Lose is a connection that breaks and that the connection pool replaces when it is used again. */
  datatype Step =
    | Begin(i: nat)
    | TryTicket(i: nat, openFails: bool, queryFails: bool)
    | Unlock(i: nat)
    | Close(i: nat)
    | Lose(i: nat)

  predicate Enabled(tickets: nat, a: System, step: Step) {
    && step.i < |a.processes|
    && (step.TryTicket? ==> a.processes[step.i].n < tickets)
  }

  function Put(a: System, server: Server, i: nat, p: Process): System
    requires i < |a.processes|
  {
    System(server, a.processes[i := p])
  }

  function Next(a: System, step: Step): System
    requires step.i < |a.processes|
  {
    var p := a.processes[step.i];
    match step
    case Begin(i) => Put(a, a.server, i, p.(n := 0))
    case TryTicket(i, openFails, queryFails) =>
      var (sv, p1, _) := Try(a.server, p, openFails, queryFails);
      Put(a, sv, i, p1)
    case Unlock(i) => if p.conn.None? then a else Put(a, ReleaseLock(a.server, p.conn.value, p.n).0, i, p)
    case Close(i) =>
      var (sv, p1) := CloseConn(a.server, p);
      Put(a, sv, i, p1)
    case Lose(i) =>
      if p.conn.None? then a
      else
        var sv := Disconnect(a.server, p.conn.value);
        Put(a, sv.(nextConn := sv.nextConn + 1), i, p.(conn := Some(sv.nextConn)))
  }

  predicate Possible(tickets: nat, a: System, steps: seq<Step>)
    decreases |steps|
  {
    steps == [] || (Enabled(tickets, a, steps[0]) && Possible(tickets, Next(a, steps[0]), steps[1..]))
  }

  function Run(tickets: nat, a: System, steps: seq<Step>): System
    requires Possible(tickets, a, steps)
    decreases |steps|
  {
    if steps == [] then a else Run(tickets, Next(a, steps[0]), steps[1..])
  }

  function Fresh(processes: nat): System {
    System(Server(map[], 0), seq(processes, _ => Process(None, 0)))
  }

  /** No two processes share a connection. */
  ghost predicate OwnConnections(a: System) {
    && (forall i :: 0 <= i < |a.processes| && a.processes[i].conn.Some? ==>
          a.processes[i].conn.value < a.server.nextConn)
    && (forall i, j :: 0 <= i < j < |a.processes| && a.processes[i].conn.Some? ==>
          a.processes[i].conn != a.processes[j].conn)
  }

  ghost predicate Inv(a: System) {
    OwnConnections(a) && KnownConnections(a.server)
  }

  lemma TryConnection(sv: Server, p: Process, openFails: bool, queryFails: bool)
    requires KnownConnections(sv) && (p.conn.Some? ==> p.conn.value < sv.nextConn)
    ensures var (sv1, p1, _) := Try(sv, p, openFails, queryFails);
      && KnownConnections(sv1) && sv.nextConn <= sv1.nextConn
      && (p1.conn.Some? ==> p1.conn.value < sv1.nextConn && (p1.conn == p.conn || p1.conn.value >= sv.nextConn))
  {
  }

  lemma PutKeepsInv(a: System, server: Server, i: nat, p: Process)
    requires Inv(a) && i < |a.processes| && KnownConnections(server) && a.server.nextConn <= server.nextConn
    requires p.conn.Some? ==>
      p.conn.value < server.nextConn && (p.conn == a.processes[i].conn || p.conn.value >= a.server.nextConn)
    ensures Inv(Put(a, server, i, p))
  {
    hide KnownConnections;
  }

  lemma StepKeepsInv(tickets: nat, a: System, step: Step)
    requires Inv(a) && Enabled(tickets, a, step)
    ensures Inv(Next(a, step)) && |Next(a, step).processes| == |a.processes|
  {
    hide Try;
    var p := a.processes[step.i];
    match step
    case Begin(i) => PutKeepsInv(a, a.server, i, p.(n := 0));
    case TryTicket(i, openFails, queryFails) =>
      TryConnection(a.server, p, openFails, queryFails);
      PutKeepsInv(a, Try(a.server, p, openFails, queryFails).0, i, Try(a.server, p, openFails, queryFails).1);
    case Unlock(i) =>
      if p.conn.Some? {
        PutKeepsInv(a, ReleaseLock(a.server, p.conn.value, p.n).0, i, p);
      }
    case Close(i) => PutKeepsInv(a, CloseConn(a.server, p).0, i, CloseConn(a.server, p).1);
    case Lose(i) =>
      if p.conn.Some? {
        var sv := Disconnect(a.server, p.conn.value);
        PutKeepsInv(a, sv.(nextConn := sv.nextConn + 1), i, p.(conn := Some(sv.nextConn)));
      }
  }

  /** Whatever a process does or fails to do, the tickets of the others stay theirs. */
  lemma OthersKeepTickets(tickets: nat, a: System, step: Step, j: nat, ticket: nat)
    requires Inv(a) && Enabled(tickets, a, step) && j < |a.processes| && j != step.i
    requires a.processes[j].conn.Some? && ticket in a.server.holds
    requires a.server.holds[ticket].conn == a.processes[j].conn.value
    ensures var b := Next(a, step);
      && ticket in b.server.holds && b.server.holds[ticket] == a.server.holds[ticket]
      && |b.processes| == |a.processes| && b.processes[j] == a.processes[j]
  {
    var i, p := step.i, a.processes[step.i];
    assert p.conn != a.processes[j].conn by {
      assert i < j ==> a.processes[i].conn != a.processes[j].conn || p.conn.None?;
    }
  }

  lemma {:induction false} RunKeepsInv(tickets: nat, a: System, steps: seq<Step>)
    requires Inv(a) && Possible(tickets, a, steps)
    ensures Inv(Run(tickets, a, steps)) && |Run(tickets, a, steps).processes| == |a.processes|
    decreases |steps|
  {
    hide Inv, Next;
    if steps != [] {
      StepKeepsInv(tickets, a, steps[0]);
      RunKeepsInv(tickets, Next(a, steps[0]), steps[1..]);
    }
  }

  /** A process has one of the first n tickets, whichever it tried last. */
  predicate HoldsOneOf(sv: Server, p: Process, n: nat) {
    p.conn.Some? && exists t | 0 <= t < n :: t in sv.holds && sv.holds[t].conn == p.conn.value
  }

  function Holders(a: System, n: nat): set<nat> {
    set i | 0 <= i < |a.processes| && HoldsOneOf(a.server, a.processes[i], n)
  }

  lemma SameTicketSameHolder(a: System, i: nat, j: nat)
    requires OwnConnections(a) && i < |a.processes| && j < |a.processes|
    requires a.processes[i].conn.Some? && a.processes[i].conn == a.processes[j].conn
    ensures i == j
  {
  }

  ghost predicate HasTicket(a: System, i: nat, t: nat) {
    i < |a.processes| && a.processes[i].conn.Some? && t in a.server.holds
      && a.server.holds[t].conn == a.processes[i].conn.value
  }

  /** One more ticket makes at most one more holder. */
  lemma OneMoreTicket(a: System, n: nat)
    requires OwnConnections(a)
    ensures |Holders(a, n + 1)| <= |Holders(a, n)| + 1
  {
    var before, after := Holders(a, n), Holders(a, n + 1);
    if i: nat :| HasTicket(a, i, n) {
      forall j | j in after
        ensures j in before + {i}
      {
        if HasTicket(a, j, n) {
          SameTicketSameHolder(a, i, j);
        }
      }
      Bounded(after, before + {i});
    } else {
      forall j | j in after
        ensures j in before
      {
        assert !HasTicket(a, j, n);
      }
      Bounded(after, before);
    }
  }

  lemma {:induction false} Bounded(a: set<nat>, b: set<nat>)
    requires a <= b
    ensures |a| <= |b|
  {
    if a != {} {
      var x :| x in a;
      Bounded(a - {x}, b - {x});
    }
  }

  lemma {:induction false} OneHolderPerTicket(a: System, n: nat)
    requires OwnConnections(a)
    ensures |Holders(a, n)| <= n
  {
    hide OwnConnections;
    if n == 0 {
      assert Holders(a, n) == {};
    } else {
      OneHolderPerTicket(a, n - 1);
      OneMoreTicket(a, n - 1);
    }
  }

  /**
   Over any interleaving of lock attempts, unlocks, closes and lost connections, at most as many processes have
   a ticket, of any number, as there are tickets, and no two processes have the same one.
   */
  lemma AtMostAsManyHoldersAsTickets(tickets: nat, processes: nat, steps: seq<Step>)
    requires Possible(tickets, Fresh(processes), steps)
    ensures var a := Run(tickets, Fresh(processes), steps);
      && |Holders(a, tickets)| <= tickets
      && forall i, j, t :: HasTicket(a, i, t) && HasTicket(a, j, t) ==> i == j
  {
    hide Run, Possible, Holders;
    RunKeepsInv(tickets, Fresh(processes), steps);
    var a := Run(tickets, Fresh(processes), steps);
    OneHolderPerTicket(a, tickets);
    forall i, j, t | HasTicket(a, i, t) && HasTicket(a, j, t)
      ensures i == j
    {
      SameTicketSameHolder(a, i, j);
    }
  }

  // ---------------------------------------------------------------------------------------------
  // Locking twice
  // ---------------------------------------------------------------------------------------------

  /**
   A Lock by a process that holds a ticket already, when a lower ticket is free, leaves the process with both
   tickets, and Unlock gives back the lower one only.
   */
  lemma LockingAgainTakesSecondTicket(sv: Server, p: Process, tickets: nat)
    requires Holds(sv, p) && p.n < tickets && 0 !in sv.holds && KnownConnections(sv)
    ensures var (sv1, p1, locked) := LockFrom(sv, p.(n := 0), tickets, {}, {});
      && locked && p1.n == 0 && p.n > 0
      && sv1.holds[0].conn == p.conn.value && p.n in sv1.holds && sv1.holds[p.n].conn == p.conn.value
      && var sv2 := ReleaseLock(sv1, p.conn.value, p1.n).0;
         0 !in sv2.holds && p.n in sv2.holds && sv2.holds[p.n].conn == p.conn.value
  {
  }

  /** Every name is held at least once by a connection that was opened, and so is the process's own connection. */
  ghost predicate Proper(sv: Server, p: Process) {
    && KnownConnections(sv) && (p.conn.Some? ==> p.conn.value < sv.nextConn)
    && forall t :: t in sv.holds ==> sv.holds[t].count >= 1
  }

  /** Unlock undoes what an undisturbed Lock did to the tickets. */
  lemma {:induction false} UnlockRestoresTickets(sv: Server, p: Process, tickets: nat)
    requires Proper(sv, p)
    ensures var (sv1, p1, locked) := LockFrom(sv, p, tickets, {}, {});
      locked ==>
        && p1.conn == (if p.conn.Some? then p.conn else Some(sv.nextConn))
        && ReleaseLock(sv1, p1.conn.value, p1.n).0.holds == sv.holds
        && ReleaseLock(sv1, p1.conn.value, p1.n).1
    decreases tickets - p.n
  {
    if p.n < tickets {
      var (sv1, p1, attempt) := Try(sv, p, false, false);
      if attempt == Refused {
        UnlockRestoresTickets(sv1, p1, tickets);
      } else {
        GrantThenRelease(if p.conn.Some? then sv else sv.(nextConn := sv.nextConn + 1), p1.conn.value, p.n);
      }
    }
  }

  /**
   When a process gives up its connection, the tickets it held can be taken by anyone, however often it took them;
   all others can be taken, refreshed and released as before.
   */
  lemma ClosingFreesTickets(sv: Server, p: Process, conn: nat, ticket: nat)
    requires p.conn.Some? && conn != p.conn.value
    ensures var (sv1, p1) := CloseConn(sv, p);
      && p1.conn.None? && sv1.nextConn == sv.nextConn
      && (ticket in sv.holds && sv.holds[ticket].conn == p.conn.value ==>
            !GetLock(sv, conn, ticket).1 && GetLock(sv1, conn, ticket).1)
      && (ticket in sv.holds && sv.holds[ticket].conn != p.conn.value ==>
            ticket in sv1.holds && sv1.holds[ticket] == sv.holds[ticket])
      && (ticket !in sv.holds ==> ticket !in sv1.holds)
  {
  }

  lemma GrantThenRelease(sv: Server, conn: nat, ticket: nat)
    requires GetLock(sv, conn, ticket).1 && forall t :: t in sv.holds ==> sv.holds[t].count >= 1
    ensures ReleaseLock(GetLock(sv, conn, ticket).0, conn, ticket) == (sv, true)
  {
    if ticket in sv.holds {
      var h := sv.holds[ticket];
      assert sv.holds[ticket := Hold(conn, h.count + 1)][ticket := Hold(conn, h.count)] == sv.holds;
    } else {
      assert sv.holds[ticket := Hold(conn, 1)] - {ticket} == sv.holds;
    }
  }

  /**
   An undisturbed Lock that succeeds, followed by Unlock, leaves the connection without a ticket exactly when the
   process held none before: whatever it held stays held.
   */
  lemma LockThenUnlockReleasesExactlyWhen(sv: Server, p: Process, tickets: nat)
    requires Proper(sv, p) && LockFrom(sv, p.(n := 0), tickets, {}, {}).2
    ensures var (sv1, p1, _) := LockFrom(sv, p.(n := 0), tickets, {}, {});
      && p1.conn.Some?
      && var sv2 := ReleaseLock(sv1, p1.conn.value, p1.n).0;
         (forall t :: t in sv2.holds ==> sv2.holds[t].conn != p1.conn.value) <==> HoldsNone(sv, p)
  {
    hide LockFrom, ReleaseLock;
    UnlockRestoresTickets(sv, p.(n := 0), tickets);
  }
}
