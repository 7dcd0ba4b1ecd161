/** The kernel as the TCP scanner sees it: open descriptors, connections by peer address, and the epoll registrations
    with the data they were made with.  The preconditions of its methods are what a caller must not get wrong. */
module Kernels {
  import opened Words
  import opened Wrappers
  import opened TcpRuns

  /** `conn` gives the descriptor connected, or connecting, to a peer; `epoll` the data registered for a descriptor. */
  datatype Sockets = Sockets(open: set<nat>, conn: map<U32, nat>, epoll: map<nat, nat>)

  function Opening(k: Sockets, fd: nat): Sockets {
    k.(open := k.open + {fd})
  }

  function Connecting(k: Sockets, peer: U32, fd: nat): Sockets {
    k.(conn := k.conn[peer := fd])
  }

  function Registering(k: Sockets, fd: nat, data: nat): Sockets {
    k.(epoll := k.epoll[fd := data])
  }

  function Unregistering(k: Sockets, fd: nat): Sockets {
    k.(epoll := k.epoll - {fd})
  }

  /** Closing a descriptor ends its connection and its registration. */
  function Closing(k: Sockets, fd: nat): Sockets {
    Sockets(k.open - {fd}, map a | a in k.conn && k.conn[a] != fd :: k.conn[a], k.epoll - {fd})
  }

  /** An event as it is reported: the data of the registration; `fd` and `ready` say where it came from. */
  datatype Raised = Raised(fd: nat, data: nat, ready: Ready)

  /** Of the connections that become ready, at most `n` registered ones are reported, each once. */
  function Report(conn: map<U32, nat>, epoll: map<nat, nat>, polled: seq<Ready>, n: nat): seq<Raised> {
    if polled == [] || n == 0 then [] else
      var r := polled[0];
      if r.peer in conn && conn[r.peer] in epoll
      then [Raised(conn[r.peer], epoll[conn[r.peer]], r)] + Report(conn - {r.peer}, epoll, polled[1..], n - 1)
      else Report(conn, epoll, polled[1..], n)
  }

  /** The least number from `from` on that is not in use. */
  function Unused(used: set<nat>, from: nat): (fd: nat)
    ensures fd !in used
    decreases |set x | x in used && x >= from|
  {
    if from !in used then from else
      var here, there := set x | x in used && x >= from, set x | x in used && x >= from + 1;
      assert here == there + {from};
      Unused(used, from + 1)
  }

  class Kernel {
    /** Descriptors of the process that are not connections of the scan, the epoll instance among them. */
    const foreign: set<nat>
    var sockets: Sockets
    var opens: nat
    var closes: nat

    constructor (foreign: set<nat>)
      ensures this.foreign == foreign && sockets == Sockets(foreign, map[], map[]) && opens == closes == 0
    {
      this.foreign := foreign;
      sockets := Sockets(foreign, map[], map[]);
      opens, closes := 0, 0;
    }

    /** Gives out a descriptor that is not open: the one wished for if possible. */
    method Socket(wish: Option<nat>) returns (fd: int)
      modifies this
      ensures wish.None? <==> fd < 0
      ensures fd < 0 ==> sockets == old(sockets) && opens == old(opens)
      ensures fd >= 0 ==> fd !in old(sockets.open) && sockets == Opening(old(sockets), fd) && opens == old(opens) + 1
      ensures closes == old(closes)
    {
      if wish.None? {
        return -1;
      }
      fd := if wish.value in sockets.open then Unused(sockets.open, 0) else wish.value;
      sockets := Opening(sockets, fd);
      opens := opens + 1;
    }

    method Connect(fd: int, peer: U32, ok: bool) returns (res: bool)
      requires fd in sockets.open && fd !in foreign && peer !in sockets.conn
      modifies `sockets
      ensures res == ok && sockets == if ok then Connecting(old(sockets), peer, fd) else old(sockets)
    {
      if ok {
        sockets := Connecting(sockets, peer, fd);
      }
      return ok;
    }

    method EpollAdd(fd: int, data: nat, ok: bool) returns (res: bool)
      requires fd in sockets.open && fd !in foreign && fd !in sockets.epoll
      modifies `sockets
      ensures res == ok && sockets == if ok then Registering(old(sockets), fd, data) else old(sockets)
    {
      if ok {
        sockets := Registering(sockets, fd, data);
      }
      return ok;
    }

    method EpollDel(fd: int)
      requires fd in sockets.epoll
      modifies `sockets
      ensures sockets == Unregistering(old(sockets), fd)
    {
      sockets := Unregistering(sockets, fd);
    }

    /** Closes an open connection: never a descriptor that is not open, never one of the others. */
    method Close(fd: int)
      requires fd in sockets.open && fd !in foreign
      modifies `sockets, `closes
      ensures sockets == Closing(old(sockets), fd) && closes == old(closes) + 1
    {
      sockets := Closing(sockets, fd);
      closes := closes + 1;
    }

    method EpollWait(polled: seq<Ready>, n: nat) returns (events: seq<Raised>)
      ensures events == Report(sockets.conn, sockets.epoll, polled, n)
    {
      return Report(sockets.conn, sockets.epoll, polled, n);
    }

    /** The error of the socket that raised the event. */
    method SocketError(fd: int, ghost raised: Raised, error: int) returns (e: int)
      requires fd in sockets.open && fd == raised.fd && error == raised.ready.error
      ensures e == raised.ready.error
    {
      return error;
    }
  }
}
