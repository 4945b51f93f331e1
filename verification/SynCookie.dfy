/** The SYN-cookie controller: connections are answered without keeping state, and only a
    client that returns the cookie reaches the table. Header fields are host-order numbers. */
module SynCookie {
  import opened Common
  import opened Bits
  import opened Memory

  type u16 = x: int | 0 <= x < 0x1_0000
  type bit = x: int | 0 <= x < 2
  /** The bytes a table update is given as its key. */
  type Key = seq<byte>
  type nibble = x: int | 0 <= x < 16

  datatype Action = Drop | Pass | Tx

  datatype Connection = Connection(srcAddr: u32, dstAddr: u32, srcPort: u16, dstPort: u16)

  datatype Ipv4 = Ipv4(srcAddr: u32, dstAddr: u32)

  datatype Tcp = Tcp(srcPort: u16, dstPort: u16, seqNo: u32, ackNo: u32, res: nibble,
                     cwr: bit, ece: bit, urg: bit, ack: bit, psh: bit, rst: bit, syn: bit, fin: bit)

  datatype Packet = Packet(ipv4: Ipv4, tcp: Tcp)

  /** `compute_connection`. */
  function Tuple(p: Packet): Connection {
    Connection(p.ipv4.srcAddr, p.ipv4.dstAddr, p.tcp.srcPort, p.tcp.dstPort)
  }

  function Reversed(t: Connection): Connection {
    Connection(t.dstAddr, t.srcAddr, t.dstPort, t.srcPort)
  }

  // ----- the cookie -----

  function Cookie(t: Connection): (c: u32)
    ensures c == Xor(Xor(t.srcPort * 0x1_0000 + t.dstPort, t.srcAddr), t.dstAddr)
  {
    CookieFits(t);
    Xor(Xor(Or(t.srcPort * 0x1_0000, t.dstPort), t.srcAddr), t.dstAddr)
  }

  lemma CookieFits(t: Connection)
    ensures Or(t.srcPort * 0x1_0000, t.dstPort) == t.srcPort * 0x1_0000 + t.dstPort
    ensures Xor(Xor(Or(t.srcPort * 0x1_0000, t.dstPort), t.srcAddr), t.dstAddr) < U32
  {
    hide Pow2, Or, Xor;
    Pow2At16();
    Pow2At32();
    var ports := t.srcPort * 0x1_0000 + t.dstPort;
    OrBelow(t.srcPort, t.dstPort, 16);
    XorBound(ports, t.srcAddr, 32);
    XorBound(Xor(ports, t.srcAddr), t.dstAddr, 32);
  }

  lemma Pow2At16()
    ensures Pow2(16) == 0x1_0000
  {
    assert Pow2(8) == 256;
  }

  /** The cookie of a packet, from its own fields. */
  lemma CookieIs(p: Packet)
    ensures Cookie(Tuple(p)) ==
            Xor(Xor(p.tcp.srcPort * 0x1_0000 + p.tcp.dstPort, p.ipv4.srcAddr), p.ipv4.dstAddr)
  {
    hide Xor, Or;
  }

  /** Between two hosts a cookie belongs to one pair of ports. */
  lemma CookiePinsPorts(s: Connection, t: Connection)
    requires s.srcAddr == t.srcAddr && s.dstAddr == t.dstAddr
    ensures Cookie(s) == Cookie(t) <==> s == t
  {
    hide Xor, Or;
    if Cookie(s) == Cookie(t) {
      var p, q := s.srcPort * 0x1_0000 + s.dstPort, t.srcPort * 0x1_0000 + t.dstPort;
      XorInjective(Xor(p, s.srcAddr), Xor(q, s.srcAddr), s.dstAddr);
      XorInjective(p, q, s.srcAddr);
    }
  }

  // ----- one packet -----

  /** Flags that no step of the handshake carries. `res` is four bits wide and compared with one. */
  predicate Stray(t: Tcp) {
    (t.syn == 1 && t.ack == 1) || t.res == 1 || t.cwr == 1 || t.ece == 1 || t.urg == 1
    || t.psh == 1 || t.rst == 1 || t.fin == 1
  }

  /** An ACK that carries its own tuple's cookie plus one. */
  predicate ReturnsCookie(p: Packet) {
    !Stray(p.tcp) && p.tcp.syn == 0 && p.tcp.ack == 1 && p.tcp.ackNo == (Cookie(Tuple(p)) + 1) % U32
  }

  predicate IsSyn(p: Packet) {
    !Stray(p.tcp) && p.tcp.syn == 1
  }

  /** What the controller drops unless the connection is known. */
  predicate Dropped(p: Packet) {
    !IsSyn(p) && !ReturnsCookie(p)
  }

  /** What is not dropped: a lone SYN, or a lone ACK of the number after the cookie. */
  lemma DroppedIff(p: Packet)
    ensures !Dropped(p) <==>
            && p.tcp.res != 1 && p.tcp.cwr == 0 && p.tcp.ece == 0 && p.tcp.urg == 0 && p.tcp.psh == 0
            && p.tcp.rst == 0 && p.tcp.fin == 0 && p.tcp.syn != p.tcp.ack
            && (p.tcp.ack == 1 ==> p.tcp.ackNo == (Cookie(Tuple(p)) + 1) % 0x1_0000_0000)
    ensures !Dropped(p) ==> (IsSyn(p) <==> p.tcp.syn == 1) && (ReturnsCookie(p) <==> p.tcp.ack == 1)
  {
    hide Cookie;
  }

  /** The answers, field by field. */
  lemma AnswersAre(p: Packet, r: Packet)
    ensures AnswersSyn(p, r) <==>
            r == Packet(Ipv4(p.ipv4.dstAddr, p.ipv4.srcAddr),
                        p.tcp.(srcPort := p.tcp.dstPort, dstPort := p.tcp.srcPort, seqNo := Cookie(Tuple(p)),
                               ackNo := (p.tcp.seqNo + 1) % 0x1_0000_0000, syn := 1, ack := 1))
    ensures AnswersAck(p, r) <==>
            r == Packet(Ipv4(p.ipv4.dstAddr, p.ipv4.srcAddr),
                        p.tcp.(srcPort := p.tcp.dstPort, dstPort := p.tcp.srcPort, seqNo := p.tcp.ackNo,
                               ackNo := (p.tcp.seqNo + 1) % 0x1_0000_0000, syn := 0, ack := 1))
  {
    hide Cookie;
  }

  /** Of the reserved bits only the value one makes a difference: a packet with reserved bits
      set is dropped exactly when they are one, or it is dropped without them too. */
  lemma ReservedDroppedIff(p: Packet)
    requires p.tcp.res != 0
    ensures Dropped(p) <==> p.tcp.res == 1 || Dropped(p.(tcp := p.tcp.(res := 0)))
  {
    hide Cookie;
    assert Tuple(p) == Tuple(p.(tcp := p.tcp.(res := 0)));
  }

  lemma ReservedBitsMayPass()
    ensures !Dropped(Packet(Ipv4(1, 2), Tcp(3, 4, 0, 0, 2, 0, 0, 0, 0, 0, 0, 1, 0)))
  {
  }

  /** The SYN-ACK sent back for a SYN. */
  predicate AnswersSyn(p: Packet, r: Packet) {
    && Tuple(r) == Reversed(Tuple(p))
    && r.tcp.syn == 1 && r.tcp.ack == 1
    && r.tcp.seqNo == Cookie(Tuple(p))
    && r.tcp.ackNo == (p.tcp.seqNo + 1) % U32
    && SameRest(p.tcp, r.tcp)
  }

  /** The ACK sent back for a returned cookie. */
  predicate AnswersAck(p: Packet, r: Packet) {
    && Tuple(r) == Reversed(Tuple(p))
    && r.tcp.syn == 0 && r.tcp.ack == 1
    && r.tcp.seqNo == p.tcp.ackNo
    && r.tcp.ackNo == (p.tcp.seqNo + 1) % U32
    && SameRest(p.tcp, r.tcp)
  }

  predicate SameRest(t: Tcp, u: Tcp) {
    && t.res == u.res && t.cwr == u.cwr && t.ece == u.ece && t.urg == u.urg
    && t.psh == u.psh && t.rst == u.rst && t.fin == u.fin
  }

  /** What the controller may do with a packet: `found` is the outcome of the lookup, and the
      table is told `key` where an update is made. */
  predicate Handled(p: Packet, found: bool, table: seq<Key>, key: Key, r: Packet, table': seq<Key>, action: Action) {
    if !found && IsSyn(p) then action == Tx && AnswersSyn(p, r) && table' == table
    else if !found && ReturnsCookie(p) then action == Tx && AnswersAck(p, r) && table' == table + [key]
    else action == (if found then Pass else Drop) && r == p && table' == table
  }

  /** Known connections pass, and what is dropped leaves everything as it was. */
  lemma HandledCases(p: Packet, found: bool, table: seq<Key>, key: Key, r: Packet, table': seq<Key>, action: Action)
    requires Handled(p, found, table, key, r, table', action)
    ensures found ==> action == Pass && r == p && table' == table
    ensures !found && Dropped(p) ==> action == Drop && r == p && table' == table
    ensures !found && !Dropped(p) ==> action == Tx && table' == if p.tcp.ack == 1 then table + [key] else table
    ensures !found && !Dropped(p) ==> if p.tcp.ack == 1 then AnswersAck(p, r) else AnswersSyn(p, r)
  {
    hide Cookie, AnswersAck, AnswersSyn;
  }

  /** The packet being rewritten and the table, as the history of its updates. What a lookup
      finds after a history is the kernel's affair, so `lookup` is any function of it. */
  class Controller {
    var ipv4: Ipv4
    var tcp: Tcp
    var table: seq<Key>

    constructor (p: Packet, table: seq<Key>)
      ensures Current() == p && this.table == table
    {
      this.ipv4, this.tcp, this.table := p.ipv4, p.tcp, table;
    }

    function Current(): Packet
      reads this
    {
      Packet(ipv4, tcp)
    }

    method HandleSyn(cookie: u32) returns (action: Action)
      requires cookie == Cookie(Tuple(Current())) && IsSyn(Current())
      modifies this`ipv4, this`tcp
      ensures action == Tx && AnswersSyn(old(Current()), Current())
    {
      hide Cookie;
      var ipaddr := ipv4.srcAddr;
      ipv4 := ipv4.(srcAddr := ipv4.dstAddr);
      ipv4 := ipv4.(dstAddr := ipaddr);
      tcp := tcp.(ackNo := (tcp.seqNo + 1) % U32);
      tcp := tcp.(seqNo := cookie);
      tcp := tcp.(ack := 1);
      var tcpport := tcp.srcPort;
      tcp := tcp.(srcPort := tcp.dstPort);
      tcp := tcp.(dstPort := tcpport);
      return Tx;
    }

    method HandleAck(key: Key) returns (action: Action)
      requires ReturnsCookie(Current())
      modifies this
      ensures action == Tx && AnswersAck(old(Current()), Current()) && table == old(table) + [key]
    {
      hide Cookie;
      table := table + [key];
      var ipaddr := ipv4.srcAddr;
      ipv4 := ipv4.(srcAddr := ipv4.dstAddr);
      ipv4 := ipv4.(dstAddr := ipaddr);
      var seqNo := tcp.seqNo;
      tcp := tcp.(seqNo := tcp.ackNo);
      tcp := tcp.(ackNo := (seqNo + 1) % U32);
      tcp := tcp.(ack := 1);
      tcp := tcp.(syn := 0);
      var tcpport := tcp.srcPort;
      tcp := tcp.(srcPort := tcp.dstPort);
      tcp := tcp.(dstPort := tcpport);
      return Tx;
    }

    method Control(lookup: (seq<Key>, Connection) -> bool, key: Key) returns (action: Action)
      modifies this
      ensures Handled(old(Current()), lookup(old(table), Tuple(old(Current()))),
                      old(table), key, Current(), table, action)
    {
      hide Cookie;
      var connection := Tuple(Current());
      if lookup(table, connection) {
        return Pass;
      }
      var cookie := Cookie(connection);
      OneLess(tcp.ackNo, cookie);
      if (tcp.syn == 1 && tcp.ack == 1) || tcp.res == 1 || tcp.cwr == 1 || tcp.ece == 1 || tcp.urg == 1
         || tcp.psh == 1 || tcp.rst == 1 || tcp.fin == 1 {
        return Drop;
      } else if tcp.syn == 1 {
        action := HandleSyn(cookie);
      } else if tcp.ack == 1 && (tcp.ackNo - 1) % U32 == cookie {
        action := HandleAck(key);
      } else {
        return Drop;
      }
    }
  }

  lemma OneLess(x: u32, c: u32)
    ensures (x - 1) % U32 == c <==> x == (c + 1) % U32
  {
  }

  // ----- the handshake over whole runs -----

  /** The client's pure ACK of a SYN-ACK (section 3.5 of RFC 9293). */
  predicate PureAckOf(r: Packet, q: Packet) {
    && Tuple(q) == Reversed(Tuple(r))
    && q.tcp.ackNo == (r.tcp.seqNo + 1) % U32
    && q.tcp.ack == 1 && q.tcp.syn == 0 && !Stray(q.tcp)
  }

  /** A packet as it came and went, with the table before it. */
  datatype Event = Event(packet: Packet, key: Key, table: seq<Key>, reply: Packet, action: Action)

  /** A run: each packet is handled against the table the one before it left. */
  ghost predicate Run(events: seq<Event>, lookup: (seq<Key>, Connection) -> bool, last: seq<Key>) {
    forall i :: 0 <= i < |events| ==> HandledAt(events, lookup, last, i)
  }

  predicate HandledAt(events: seq<Event>, lookup: (seq<Key>, Connection) -> bool, last: seq<Key>, i: nat)
    requires i < |events|
  {
    var e := events[i];
    Handled(e.packet, lookup(e.table, Tuple(e.packet)), e.table, e.key, e.reply, TableAfter(events, last, i), e.action)
  }

  function TableAfter(events: seq<Event>, last: seq<Key>, i: nat): seq<Key>
    requires i < |events|
  {
    if i + 1 < |events| then events[i + 1].table else last
  }

  /** The client of every SYN that was answered is let in: at any later point of the run its
      pure ACK of that answer, unless its tuple is in the table by then, reaches `handle_ack`. */
  lemma AnsweredSynIsAdmitted(events: seq<Event>, lookup: (seq<Key>, Connection) -> bool, last: seq<Key>, i: nat,
                              j: nat)
    requires Run(events, lookup, last) && i < j < |events|
    requires events[i].packet.tcp.syn == 1 && events[i].action == Tx
    requires PureAckOf(events[i].reply, events[j].packet)
    requires !lookup(events[j].table, Tuple(events[j].packet))
    ensures Tuple(events[j].packet) == Tuple(events[i].packet)
    ensures ReturnsCookie(events[j].packet) && events[j].action == Tx
    ensures TableAfter(events, last, j) == events[j].table + [events[j].key]
  {
    hide Cookie;
    assert HandledAt(events, lookup, last, i) && HandledAt(events, lookup, last, j);
  }

  /** The keys that packets returning their own cookie bring to the table, in order. */
  function Admitted(events: seq<Event>, lookup: (seq<Key>, Connection) -> bool): seq<Key> {
    if events == [] then []
    else
      var e := events[|events| - 1];
      Admitted(events[..|events| - 1], lookup)
      + if !lookup(e.table, Tuple(e.packet)) && ReturnsCookie(e.packet) then [e.key] else []
  }

  /** Over a whole run the table grows by exactly the packets that were not in it and returned
      their own tuple's cookie; SYNs, answered or not, and all else leave it as it was. */
  lemma {:induction false} OnlyCookiesChangeTheTable(events: seq<Event>, lookup: (seq<Key>, Connection) -> bool,
                                                     last: seq<Key>)
    requires Run(events, lookup, last) && events != []
    ensures last == events[0].table + Admitted(events, lookup)
    decreases |events|
  {
    hide Cookie, AnswersSyn, AnswersAck;
    var n := |events| - 1;
    var e, front := events[n], events[..n];
    assert HandledAt(events, lookup, last, n);
    if front != [] {
      forall i | 0 <= i < n ensures HandledAt(front, lookup, e.table, i) {
        assert HandledAt(events, lookup, last, i);
      }
      OnlyCookiesChangeTheTable(front, lookup, e.table);
    }
  }
}
