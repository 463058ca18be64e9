/** The lock server and the lock of one process as objects updated in place (lock/lock.go). */
module LockObjects {
  import opened Options
  import opened TicketLock

  class LockServer {
    var holds: map<nat, Hold>
    var nextConn: nat

    ghost function State(): Server
      reads this
    {
      Server(holds, nextConn)
    }

    constructor ()
      ensures State() == Server(map[], 0)
    {
      holds, nextConn := map[], 0;
    }

    method Connect() returns (conn: nat)
      modifies this
      ensures conn == old(nextConn) && State() == old(State()).(nextConn := old(nextConn) + 1)
    {
      conn := nextConn;
      nextConn := nextConn + 1;
    }

    method Disconnect(conn: nat)
      modifies this
      ensures State() == TicketLock.Disconnect(old(State()), conn)
    {
      holds := map t | t in holds && holds[t].conn != conn :: holds[t];
    }

    method GetLock(conn: nat, ticket: nat) returns (granted: bool)
      modifies this
      ensures (State(), granted) == TicketLock.GetLock(old(State()), conn, ticket)
    {
      if ticket !in holds {
        holds := holds[ticket := Hold(conn, 1)];
        return true;
      }
      if holds[ticket].conn == conn {
        holds := holds[ticket := Hold(conn, holds[ticket].count + 1)];
        return true;
      }
      return false;
    }

    method ReleaseLock(conn: nat, ticket: nat) returns (released: bool)
      modifies this
      ensures (State(), released) == TicketLock.ReleaseLock(old(State()), conn, ticket)
    {
      if ticket !in holds || holds[ticket].conn != conn {
        return false;
      }
      if holds[ticket].count <= 1 {
        holds := holds - {ticket};
      } else {
        holds := holds[ticket := Hold(conn, holds[ticket].count - 1)];
      }
      return true;
    }
  }

  class MyLock {
    const server: LockServer
    const ntickets: nat
    var conn: Option<nat>
    var n: nat

    ghost function State(): Process
      reads this
    {
      Process(conn, n)
    }

    constructor (server: LockServer, ntickets: nat)
      ensures this.server == server && this.ntickets == ntickets && State() == Process(None, 0)
    {
      this.server, this.ntickets := server, ntickets;
      conn, n := None, 0;
    }

    method CloseConn()
      modifies this, server
      ensures (server.State(), State()) == TicketLock.CloseConn(old(server.State()), old(State()))
    {
      if conn.Some? {
        server.Disconnect(conn.value);
        conn := None;
      }
    }

    /** One round of the loop in Lock. */
    method TryTicket(openFails: bool, queryFails: bool) returns (attempt: Attempt)
      modifies this, server
      ensures (server.State(), State(), attempt) == Try(old(server.State()), old(State()), openFails, queryFails)
    {
      if conn.None? {
        if openFails {
          return NoConnection;
        }
        var c := server.Connect();
        conn := Some(c);
      }
      if queryFails {
        CloseConn();
      } else {
        var granted := server.GetLock(conn.value, n);
        if granted {
          return Granted;
        }
      }
      n := n + 1;
      return Refused;
    }

    method Lock(openFails: set<nat>, queryFails: set<nat>) returns (locked: bool)
      modifies this, server
      ensures (server.State(), State(), locked)
           == LockFrom(old(server.State()), Process(old(conn), 0), ntickets, openFails, queryFails)
      ensures locked ==> Holds(server.State(), State()) && n < ntickets
    {
      hide Try;
      LockedMeansHeld(server.State(), Process(conn, 0), ntickets, openFails, queryFails);
      n := 0;
      while n < ntickets
        invariant LockFrom(server.State(), State(), ntickets, openFails, queryFails)
               == LockFrom(old(server.State()), Process(old(conn), 0), ntickets, openFails, queryFails)
        decreases ntickets - n
      {
        TryMovesOn(server.State(), State(), n in openFails, n in queryFails);
        var attempt := TryTicket(n in openFails, n in queryFails);
        if attempt == Granted {
          return true;
        }
        if attempt == NoConnection {
          return false;
        }
      }
      return false;
    }

    /** A failed query costs the connection. */
    method IsLockedByMe(fails: bool) returns (mine: bool)
      modifies this, server
      ensures conn.Some? && !fails ==> mine == Holds(server.State(), State())
      ensures !fails ==> server.State() == old(server.State()) && State() == old(State())
      ensures fails || conn.None? ==> !mine
      ensures fails ==> (server.State(), State()) == TicketLock.CloseConn(old(server.State()), old(State()))
    {
      if conn.None? {
        return false;
      }
      if fails {
        CloseConn();
        return false;
      }
      return n in server.holds && server.holds[n].conn == conn.value;
    }

    method Refresh(fails: bool, openFails: set<nat>, queryFails: set<nat>) returns (locked: bool)
      modifies this, server
      ensures !fails && Holds(old(server.State()), old(State())) ==>
        locked && server.State() == old(server.State()) && State() == old(State())
      ensures !fails && !Holds(old(server.State()), old(State())) ==>
        (server.State(), State(), locked)
          == LockFrom(old(server.State()), Process(old(conn), 0), ntickets, openFails, queryFails)
      ensures fails ==>
        (server.State(), State(), locked)
          == LockFrom(TicketLock.CloseConn(old(server.State()), old(State())).0, Process(None, 0), ntickets,
                      openFails, queryFails)
      ensures locked ==> Holds(server.State(), State())
    {
      var mine := IsLockedByMe(fails);
      if mine {
        return true;
      }
      locked := Lock(openFails, queryFails);
    }

    method Unlock(fails: bool) returns (ok: bool)
      modifies server
      ensures conn.None? || fails ==> !ok && server.State() == old(server.State())
      ensures conn.Some? && !fails ==>
        (server.State(), ok) == TicketLock.ReleaseLock(old(server.State()), conn.value, n)
    {
      if conn.None? || fails {
        return false;
      }
      ok := server.ReleaseLock(conn.value, n);
    }

    method Close()
      modifies this, server
      ensures (server.State(), State()) == TicketLock.CloseConn(old(server.State()), old(State()))
    {
      CloseConn();
    }
  }
}
