/** The blacklist, the UDP server's handling of a datagram, and the HTTP handlers. */
module Servers {
  import opened Bcd
  import opened SessionStores
  import opened Serialised
  import opened ManagerSpec
  import opened TextOrder
  import opened SessionManagers
  import opened Admission

  class Blacklist {
    var blocked: set<string>

    constructor (imsis: seq<string>)
      ensures forall k :: k in blocked <==> k in imsis
    {
      blocked := {};
      new;
      for i := 0 to |imsis|
        invariant forall k :: k in blocked <==> k in imsis[..i]
      {
        blocked := blocked + {imsis[i]};
      }
    }

    predicate IsBlocked(imsi: string)
      reads this
    {
      imsi in blocked
    }
  }

  class UdpServer {
    const blacklist: Blacklist
    const sessions: SessionManager
    var running: bool

    ghost predicate Valid()
      reads this, blacklist, sessions, sessions.store.Obj(), sessions.cdr
    {
      && sessions.Valid()
      && this as object !in {blacklist, sessions, sessions.store.Obj(), sessions.cdr}
      && blacklist as object !in {sessions, sessions.store.Obj(), sessions.cdr}
    }

    constructor (blacklist: Blacklist, sessions: SessionManager)
      requires sessions.Valid() && blacklist as object !in {sessions, sessions.store.Obj(), sessions.cdr}
      ensures Valid() && this.blacklist == blacklist && this.sessions == sessions && !running
    {
      this.blacklist := blacklist;
      this.sessions := sessions;
      running := false;
    }

    method Start()
      modifies this`running
      ensures running
    {
      running := true;
    }

    method Stop()
      modifies this`running
      ensures !running
    {
      running := false;
    }

    /** One turn of run_loop, with what recvfrom has put into the buffer. A datagram that is answered with
        "created" touches its IMSI; any other leaves the sessions alone. */
    method HandleDatagram(datagram: seq<Byte>) returns (reply: Reply)
      requires Valid()
      modifies sessions.store.Obj(), sessions.cdr
      ensures Valid()
      ensures reply == Verdict(blacklist.blocked, datagram)
      ensures reply == Answer("created") ==>
                sessions.Snapshot() == Do(sessions.text, sessions.store.Kind(), sessions.timeout,
                                          old(sessions.Snapshot()), Touch(Decode(Received(datagram))))
      ensures reply != Answer("created") ==> sessions.Snapshot() == old(sessions.Snapshot())
    {
      var buf := Received(datagram);
      if |buf| == 0 {
        return NoReply;
      }
      var imsi := DecodeImsi(buf);
      var accepted := false;
      if !blacklist.IsBlocked(imsi) {
        accepted := sessions.TouchSession(imsi);
      }
      reply := Answer(if accepted then "created" else "rejected");
    }
  }

  class HttpApi {
    const udp: UdpServer
    const gracefulRate: nat

    constructor (udp: UdpServer, gracefulRate: nat)
      ensures this.udp == udp && this.gracefulRate == gracefulRate
    {
      this.udp := udp;
      this.gracefulRate := gracefulRate;
    }

    method CheckSubscriber(imsi: string) returns (answer: string)
      requires udp.Valid()
      ensures var table, now := udp.sessions.store.Contents(), udp.sessions.text(udp.sessions.clock);
              answer == if imsi in table && Less(now, table[imsi].expiresAt) then "active" else "not active"
    {
      var active := udp.sessions.IsActive(imsi);
      answer := if active then "active" else "not active";
    }

    /** The UDP server is told to stop first; then all sessions are offloaded. */
    method StopServer() returns (ghost gone: seq<Removal>)
      requires udp.Valid() && gracefulRate >= 1
      modifies udp`running, udp.sessions.store.Obj(), udp.sessions.cdr, udp.sessions`clock, udp.sessions`sleptMs
      ensures udp.Valid() && !udp.running
      ensures OffloadsTo(udp.sessions.text, old(udp.sessions.Snapshot()), udp.sessions.Snapshot(), gone)
      ensures var table, now := udp.sessions.store.Contents(), udp.sessions.text(udp.sessions.clock);
              forall imsi | imsi in table :: !Less(now, table[imsi].expiresAt)
    {
      udp.Stop();
      var calls, removals := udp.sessions.GracefulStop(gracefulRate);
      gone := removals;
      NobodyActive(udp.sessions.text, udp.sessions.Snapshot());
    }
  }
}
