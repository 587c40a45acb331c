/** The accept loop of `serve_forever` (Server.py): each accepted connection either gets
    a slot and a handler or is turned away with `SERVER FULL`.

    Threads are not modelled: a handler that has been started and has not finished is a
    connection in `running`, and `RunHandler` runs one of them to its end as one step. */
module Server {
  import opened Text
  import opened LineChannel
  import opened Registry
  import opened Admission
  import opened Session

  class Server {
    const sem: Semaphore
    const reg: Registry
    /** The connections whose handler holds a slot. */
    var running: seq<Socket>

    /** Free slots and running handlers always add up to `MAX_CLIENTS`. */
    ghost predicate Valid()
      reads this, sem, reg
    {
      sem.value + |running| == MAX_CLIENTS && reg.Valid()
    }

    constructor ()
      ensures Valid() && running == [] && sem.value == MAX_CLIENTS && reg.Abs() == Initial()
      ensures fresh(sem) && fresh(reg)
    {
      sem := new Semaphore(MAX_CLIENTS);
      reg := new Registry();
      running := [];
    }

    /** One pass of the accept loop for a new connection: a non-blocking acquire; without
        a slot a best-effort `SERVER FULL` and a close, and nothing else; with one, the
        handler starts. */
    method Accept(conn: Socket) returns (admitted: bool)
      requires Valid()
      modifies this, sem, conn
      ensures Valid() && sem.value <= MAX_CLIENTS
      ensures admitted == (old(sem.value) > 0)
      ensures admitted ==> running == old(running) + [conn] && sem.value == old(sem.value) - 1
      ensures admitted ==> unchanged(conn)
      ensures !admitted ==> running == old(running) && sem.value == old(sem.value) == 0
      ensures !admitted ==> conn.closed && Wrote(old(conn.outbox), old(conn.room), conn.outbox, conn.room, LineBytes("SERVER FULL"))
      ensures reg.Abs() == old(reg.Abs())
    {
      var acquired := sem.TryAcquire();
      if !acquired {
        var sent := SendLine(conn, "SERVER FULL");
        conn.Close();
        return false;
      }
      running := running + [conn];
      admitted := true;
    }

    /** The handler of `running[i]` runs to its end; its slot is free again. */
    method RunHandler(i: nat, env: Env, addr: string, accepted: string, finished: string)
      requires Valid() && i < |running|
      modifies this, sem, reg, running[i]
      ensures Valid() && sem.value <= MAX_CLIENTS
      ensures running == old(running[..i] + running[i + 1..])
      ensures sem.value == old(sem.value) + 1
      ensures var st := Registered(old(reg.Abs()), accepted, addr);
        var name := NextName(old(reg.Abs()));
        var conn := old(running[i]);
        && Wrote(old(conn.outbox), old(conn.room), conn.outbox, conn.room,
                 Transcript(old(conn.inbox), old(conn.resets), st, env, name))
        && conn.closed
        && reg.Abs() == Finished(st, name, finished)
    {
      var conn := running[i];
      HandleClient(conn, reg, sem, env, addr, accepted, finished);
      running := running[..i] + running[i + 1..];
    }
  }
}
