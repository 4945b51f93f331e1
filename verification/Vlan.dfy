/** VLAN tags (clause 9 of IEEE 802.1Q) of Ethernet frames: the header parsers, and pushing
    and popping the outermost tag in place.

    Pushing and popping work on the packet memory; `Frame` is what lies between `data` and
    `data_end`.  `h_proto` fields are read as the 16-bit big-endian numbers they are. */
module Vlan {
  import opened Common
  import opened Memory

  const ETH_HLEN := 14
  const VLAN_HLEN := 4
  const IP6_HLEN := 40
  const VLAN_MAX_DEPTH := 5
  const ETH_P_8021Q := 0x8100
  const ETH_P_8021AD := 0x88A8
  const ETH_P_IPV6 := 0x86DD

  function Be16(f: seq<byte>, p: nat): nat
    requires p + 2 <= |f|
  {
    var hi: int, lo: int := f[p], f[p + 1];
    256 * hi + lo
  }

  /** `bpf_htons`: the two bytes of the low 16 bits of a number. */
  function Htons(v: int): (r: seq<byte>)
    ensures |r| == 2 && Be16(r, 0) == v % 0x1_0000
  {
    [v / 256 % 256, v % 256]
  }

  predicate ProtoIsVlan(proto: nat) {
    proto == ETH_P_8021Q || proto == ETH_P_8021AD
  }

  /** Exactly these two types announce a tag; numbers come high byte first. */
  lemma TagTypes(f: seq<byte>, p: nat)
    requires p + 2 <= |f|
    ensures ProtoIsVlan(Be16(f, p)) <==> (f[p], f[p + 1]) == (0x81, 0) || (f[p], f[p + 1]) == (0x88, 0xA8)
    ensures Be16(f, p) / 0x100 == f[p] && Be16(f, p) % 0x100 == f[p + 1]
  {
  }

  // ----- parsing -----

  datatype Parsed = Parsed(pos: nat, proto: nat, tags: nat)

  /** Walks up to `depth` tags: stops at an inner protocol, or at a tag that is cut off. */
  function WalkTags(f: seq<byte>, pos: nat, proto: nat, depth: nat): (r: Parsed)
    ensures r.tags <= depth && r.pos == pos + VLAN_HLEN * r.tags
    ensures pos <= |f| ==> r.pos <= |f|
    ensures r.tags < depth ==> !ProtoIsVlan(r.proto) || r.pos + VLAN_HLEN > |f|
    decreases depth
  {
    if depth == 0 || !ProtoIsVlan(proto) || pos + VLAN_HLEN > |f| then Parsed(pos, proto, 0)
    else
      var r := WalkTags(f, pos + VLAN_HLEN, Be16(f, pos + 2), depth - 1);
      r.(tags := r.tags + 1)
  }

  /** What the whole Ethernet header at `pos` and the tags after it are parsed into. */
  function ParseAt(f: seq<byte>, pos: nat): Parsed
    requires pos + ETH_HLEN <= |f|
  {
    WalkTags(f, pos + ETH_HLEN, Be16(f, pos + 12), VLAN_MAX_DEPTH)
  }

  /** `parse_ethhdr`: the inner type and the new cursor, or -1. */
  method ParseEthhdr(f: seq<byte>, pos: nat) returns (r: int, newPos: nat)
    ensures pos + ETH_HLEN > |f| ==> r == -1 && newPos == pos
    ensures pos + ETH_HLEN <= |f| ==> r == ParseAt(f, pos).proto && newPos == ParseAt(f, pos).pos
  {
    if pos + ETH_HLEN > |f| {
      return -1, pos;
    }
    var vlh: nat, proto: nat := pos + ETH_HLEN, Be16(f, pos + 12);
    var i := 0;
    while i < VLAN_MAX_DEPTH
      invariant 0 <= i <= VLAN_MAX_DEPTH
      invariant WalkTags(f, vlh, proto, VLAN_MAX_DEPTH - i).pos == ParseAt(f, pos).pos
      invariant WalkTags(f, vlh, proto, VLAN_MAX_DEPTH - i).proto == ParseAt(f, pos).proto
    {
      if !ProtoIsVlan(proto) {
        break;
      }
      if vlh + VLAN_HLEN > |f| {
        break;
      }
      proto := Be16(f, vlh + 2);
      vlh := vlh + VLAN_HLEN;
      i := i + 1;
    }
    return proto, vlh;
  }

  /** `parse_ip6hdr`: the next-header byte and the new cursor, or -1. */
  method ParseIp6hdr(f: seq<byte>, pos: nat) returns (r: int, newPos: nat)
    ensures if pos + IP6_HLEN > |f| then r == -1 && newPos == pos else r == f[pos + 6] && newPos == pos + IP6_HLEN
  {
    if pos + IP6_HLEN > |f| {
      return -1, pos;
    }
    return f[pos + 6], pos + IP6_HLEN;
  }

  /** `get_ip6hdr` for the Ethernet header at `eth`, with the cursor behind it: where the IPv6
      header is, if there is one, and the new cursor.  Unlike `parse_ethhdr` it gives up at a
      tag that is cut off. */
  method GetIp6hdr(f: seq<byte>, eth: nat, pos: nat) returns (r: Option<nat>, newPos: nat)
    requires pos == eth + ETH_HLEN <= |f|
    ensures var p := ParseAt(f, eth);
            if p.proto == ETH_P_IPV6 && p.pos + IP6_HLEN <= |f| then r == Some(p.pos) && newPos == p.pos + IP6_HLEN
            else r == None && newPos == pos
  {
    hide Be16;
    var vlh: nat, proto: nat := pos, Be16(f, eth + 12);
    var i := 0;
    while i < VLAN_MAX_DEPTH
      invariant 0 <= i <= VLAN_MAX_DEPTH && vlh <= |f|
      invariant WalkTags(f, vlh, proto, VLAN_MAX_DEPTH - i).pos == ParseAt(f, eth).pos
      invariant WalkTags(f, vlh, proto, VLAN_MAX_DEPTH - i).proto == ParseAt(f, eth).proto
    {
      if !(proto == ETH_P_8021Q || proto == ETH_P_8021AD) {
        break;
      }
      if vlh + VLAN_HLEN > |f| {
        return None, pos;
      }
      proto := Be16(f, vlh + 2);
      vlh := vlh + VLAN_HLEN;
      i := i + 1;
    }
    if proto != ETH_P_IPV6 {
      return None, pos;
    }
    if vlh + IP6_HLEN > |f| {
      return None, pos;
    }
    return Some(vlh), vlh + IP6_HLEN;
  }

  /** `get_ethhdr`: where the Ethernet header is, if it fits, and the new cursor. */
  method GetEthhdr(f: seq<byte>, pos: nat) returns (r: Option<nat>, newPos: nat)
    ensures if pos + ETH_HLEN > |f| then r == None && newPos == pos else r == Some(pos) && newPos == pos + ETH_HLEN
  {
    if pos + ETH_HLEN > |f| {
      return None, pos;
    }
    return Some(pos), pos + ETH_HLEN;
  }

  /** Both ways to the IPv6 header, `get_ethhdr` and `get_ip6hdr` or `parse_ethhdr` and
      `parse_ip6hdr`, agree on every frame. */
  method Ip6BothWays(f: seq<byte>, pos: nat)
    returns (direct: Option<nat>, staged: Option<nat>, cursor: nat, after: nat)
    ensures direct == staged
    ensures direct.Some? <==> pos + 14 <= |f| && ParseAt(f, pos).proto == 0x86DD &&
                               ParseAt(f, pos).pos + 40 <= |f|
    ensures direct.Some? ==> cursor == after == ParseAt(f, pos).pos + IP6_HLEN == direct.value + IP6_HLEN
  {
    hide WalkTags;
    direct, staged := None, None;
    var eth;
    eth, cursor := GetEthhdr(f, pos);
    if eth.Some? {
      direct, cursor := GetIp6hdr(f, eth.value, cursor);
    }
    var proto;
    proto, after := ParseEthhdr(f, pos);
    if proto == ETH_P_IPV6 {
      var ip6, next := after, 0;
      next, after := ParseIp6hdr(f, after);
      if next >= 0 {
        staged := Some(ip6);
      }
    }
  }

  // ----- pushing and popping, on frames -----

  function Pushed(f: seq<byte>, vlid: int): (r: seq<byte>)
    requires |f| >= ETH_HLEN
    ensures |r| == |f| + VLAN_HLEN
  {
    f[..12] + Htons(ETH_P_8021Q) + Htons(vlid) + f[12..]
  }

  function Popped(f: seq<byte>): (r: seq<byte>)
    requires |f| >= ETH_HLEN + VLAN_HLEN
    ensures |r| == |f| - VLAN_HLEN
  {
    f[..12] + f[16..]
  }

  lemma PushThenPop(f: seq<byte>, vlid: int)
    requires |f| >= ETH_HLEN
    ensures Popped(Pushed(f, vlid)) == f
    ensures ProtoIsVlan(Be16(Pushed(f, vlid), 12)) && Be16(Pushed(f, vlid), 14) == vlid % 0x1_0000
  {
  }

  lemma Be16Shifted(f: seq<byte>, g: seq<byte>, p: nat)
    requires |g| == |f| + VLAN_HLEN && ETH_HLEN <= p && p + 2 <= |f|
    requires forall x :: ETH_HLEN <= x < |f| ==> g[x + VLAN_HLEN] == f[x]
    ensures Be16(g, p + VLAN_HLEN) == Be16(f, p)
  {
  }

  /** After the first header, a pushed frame is the old frame moved by one tag. */
  lemma {:induction false} WalkShifted(f: seq<byte>, g: seq<byte>, pos: nat, proto: nat, depth: nat)
    requires |g| == |f| + VLAN_HLEN && pos >= ETH_HLEN && forall x :: ETH_HLEN <= x < |f| ==> g[x + VLAN_HLEN] == f[x]
    ensures var r := WalkTags(f, pos, proto, depth);
            WalkTags(g, pos + VLAN_HLEN, proto, depth) == r.(pos := r.pos + VLAN_HLEN)
    decreases depth
  {
    hide Be16, ProtoIsVlan;
    if !(depth == 0 || !ProtoIsVlan(proto) || pos + VLAN_HLEN > |f|) {
      Be16Shifted(f, g, pos + 2);
      WalkShifted(f, g, pos + VLAN_HLEN, Be16(f, pos + 2), depth - 1);
    }
  }

  /** One level less of depth makes no difference unless it is used up. */
  lemma {:induction false} WalkShallower(f: seq<byte>, pos: nat, proto: nat, depth: nat)
    requires depth > 0
    ensures var r := WalkTags(f, pos, proto, depth);
            if r.tags < depth then WalkTags(f, pos, proto, depth - 1) == r
            else WalkTags(f, pos, proto, depth - 1).tags == depth - 1
    decreases depth
  {
    if depth > 1 && ProtoIsVlan(proto) && pos + VLAN_HLEN <= |f| {
      WalkShallower(f, pos + VLAN_HLEN, Be16(f, pos + 2), depth - 1);
    }
  }

  /** What the parser leaves after the tags. */
  function Payload(f: seq<byte>): seq<byte>
    requires |f| >= ETH_HLEN
  {
    f[ParseAt(f, 0).pos..]
  }

  /** Pushing a tag leaves the parsed payload as it was exactly when the parser still had a
      level to spare, and then it leaves the inner type as it was too. */
  lemma PushKeepsParseIff(f: seq<byte>, vlid: int)
    requires |f| >= ETH_HLEN
    ensures var g := Pushed(f, vlid);
            && (Payload(g) == Payload(f) <==> ParseAt(f, 0).tags < VLAN_MAX_DEPTH)
            && (ParseAt(f, 0).tags < VLAN_MAX_DEPTH ==> ParseAt(g, 0).proto == ParseAt(f, 0).proto)
  {
    hide WalkTags, Be16, Htons;
    var g := Pushed(f, vlid);
    PushedParse(f, vlid);
    var r := ParseAt(f, 0);
    if r.tags < VLAN_MAX_DEPTH {
      assert g[r.pos + VLAN_HLEN..] == f[r.pos..];
    } else {
      assert |Payload(g)| == |Payload(f)| + VLAN_HLEN;
    }
  }

  /** A frame with as many tags as the parser follows: addresses, five tags and an inner type. */
  function FiveTags(): seq<byte> {
    seq(12, _ => 0) + Tag() + Tag() + Tag() + Tag() + Tag() + Htons(ETH_P_IPV6)
  }

  function Tag(): seq<byte> {
    Htons(ETH_P_8021Q) + [0, 0]
  }

  /** On it, one more tag changes what is parsed: the tag that was last becomes payload. */
  lemma SixthTagIsNotParsed(vlid: int)
    ensures ParseAt(FiveTags(), 0).proto == ETH_P_IPV6 && Payload(FiveTags()) == []
    ensures Payload(Pushed(FiveTags(), vlid)) != Payload(FiveTags())
  {
    hide Htons, Pushed;
    FiveTagsParse();
    PushKeepsParseIff(FiveTags(), vlid);
  }

  lemma FiveTagsParse()
    ensures ParseAt(FiveTags(), 0) == Parsed(34, ETH_P_IPV6, 5)
  {
    var f := FiveTags();
    assert f == seq(12, _ => 0) + [0x81, 0, 0, 0, 0x81, 0, 0, 0, 0x81, 0, 0, 0,
                                   0x81, 0, 0, 0, 0x81, 0, 0, 0, 0x86, 0xDD];
    assert Be16(f, 12) == Be16(f, 16) == Be16(f, 20) == Be16(f, 24) == Be16(f, 28) == ETH_P_8021Q;
    assert Be16(f, 32) == ETH_P_IPV6;
    assert WalkTags(f, 34, ETH_P_IPV6, 0) == Parsed(34, ETH_P_IPV6, 0);
    assert WalkTags(f, 30, ETH_P_8021Q, 1) == Parsed(34, ETH_P_IPV6, 1);
    assert WalkTags(f, 26, ETH_P_8021Q, 2) == Parsed(34, ETH_P_IPV6, 2);
    assert WalkTags(f, 22, ETH_P_8021Q, 3) == Parsed(34, ETH_P_IPV6, 3);
    assert WalkTags(f, 18, ETH_P_8021Q, 4) == Parsed(34, ETH_P_IPV6, 4);
  }

  /** The pushed frame is parsed one tag further, until the parser's depth is used up. */
  lemma PushedParse(f: seq<byte>, vlid: int)
    requires |f| >= ETH_HLEN
    ensures var g, r := ParseAt(Pushed(f, vlid), 0), ParseAt(f, 0);
            && (r.tags < VLAN_MAX_DEPTH ==> g.pos == r.pos + VLAN_HLEN && g.proto == r.proto)
            && (r.tags == VLAN_MAX_DEPTH ==> g.pos == r.pos)
            && ETH_HLEN <= r.pos <= |f| && g.pos <= |f| + VLAN_HLEN
  {
    var g, p := Pushed(f, vlid), Be16(f, 12);
    PushedFields(f, vlid);
    WalkShifted(f, g, ETH_HLEN, p, VLAN_MAX_DEPTH - 1);
    WalkShallower(f, ETH_HLEN, p, VLAN_MAX_DEPTH);
    FirstTag(g, p);
  }

  lemma PushedFields(f: seq<byte>, vlid: int)
    requires |f| >= ETH_HLEN
    ensures var g := Pushed(f, vlid);
            && Be16(g, 12) == ETH_P_8021Q && Be16(g, 14) == vlid % 0x1_0000 && Be16(g, 16) == Be16(f, 12)
            && forall x :: ETH_HLEN <= x < |f| ==> g[x + VLAN_HLEN] == f[x]
  {
  }

  lemma FirstTag(g: seq<byte>, p: nat)
    requires |g| >= ETH_HLEN + VLAN_HLEN && ProtoIsVlan(Be16(g, 12)) && Be16(g, 16) == p
    ensures var r := WalkTags(g, ETH_HLEN + VLAN_HLEN, p, VLAN_MAX_DEPTH - 1);
            ParseAt(g, 0) == r.(tags := r.tags + 1)
  {
  }

  // ----- pushing and popping, in packet memory -----

  /** Packet memory after `s` has been stored at `p`. */
  function Poked(b: seq<byte>, p: nat, s: seq<byte>): (r: seq<byte>)
    requires p + |s| <= |b|
    ensures |r| == |b|
  {
    b[..p] + s + b[p + |s|..]
  }

  /** An XDP packet: the frame lies from `data` to `dataEnd`, and `data` may go down to `room`. */
  class XdpMd {
    const buf: array<byte>
    const room: nat
    var data: nat
    var dataEnd: nat

    ghost predicate Ok()
      reads this
    {
      room <= data && data + ETH_HLEN <= dataEnd <= buf.Length
    }

    ghost function Frame(): seq<byte>
      requires Ok()
      reads this, buf
    {
      buf[data..dataEnd]
    }

    constructor (buf: array<byte>, room: nat, data: nat, dataEnd: nat)
      requires room <= data && data + ETH_HLEN <= dataEnd <= buf.Length
      ensures Ok() && this.buf == buf && this.room == room && this.data == data && this.dataEnd == dataEnd
    {
      this.buf, this.room, this.data, this.dataEnd := buf, room, data, dataEnd;
    }

    method Poke(p: nat, s: seq<byte>)
      requires p + |s| <= buf.Length
      modifies buf
      ensures buf[..] == Poked(old(buf[..]), p, s)
    {
      ghost var b := buf[..];
      var k := 0;
      while k < |s|
        invariant 0 <= k <= |s| && buf[..] == Poked(b, p, s[..k])
      {
        buf[p + k] := s[k];
        PokedMore(b, p, s, k);
        assert buf[..] == Poked(b, p, s[..k])[p + k := s[k]];
        k := k + 1;
      }
      assert s[..k] == s;
    }

    /** `bpf_xdp_adjust_head`: the frame keeps its end, and at least an Ethernet header. */
    method AdjustHead(delta: int) returns (err: int)
      requires Ok()
      modifies this`data
      ensures Ok()
      ensures if room <= old(data) + delta <= dataEnd - ETH_HLEN then err == 0 && data == old(data) + delta
              else err != 0 && data == old(data)
    {
      if data + delta < room || data + delta > dataEnd - ETH_HLEN {
        return -EINVAL;
      }
      data := data + delta;
      return 0;
    }

    /** `vlan_tag_push`. */
    method Push(vlid: int) returns (r: int)
      requires Ok()
      modifies this`data, buf
      ensures Ok() && r == if room + VLAN_HLEN <= old(data) then 0 else -1
      ensures Frame() == if r == 0 then Pushed(old(Frame()), vlid) else old(Frame())
    {
      hide Poked, Htons, Pushed;
      var ethCpy := buf[data..data + ETH_HLEN];
      ghost var f, b := buf[data..dataEnd], buf[..];
      var err := AdjustHead(-VLAN_HLEN);
      if err != 0 {
        return -1;
      }
      Poke(data, ethCpy);
      Poke(data + ETH_HLEN, Htons(vlid));
      Poke(data + ETH_HLEN + 2, ethCpy[12..14]);
      Poke(data + 12, Htons(ETH_P_8021Q));
      PushedInPlace(b, data, dataEnd, vlid);
      return 0;
    }

    /** `vlan_tag_pop`: the tag that was removed, or -1. */
    method Pop() returns (r: int)
      requires Ok()
      modifies this`data, buf
      ensures Ok()
      ensures var f := old(Frame());
              if ProtoIsVlan(Be16(f, 12)) && |f| >= ETH_HLEN + VLAN_HLEN then r == Be16(f, 14) && Frame() == Popped(f)
              else r == -1 && Frame() == f
    {
      hide Poked, Be16;
      ghost var f, b := buf[data..dataEnd], buf[..];
      var eth := buf[data..data + ETH_HLEN];
      Be16Slice(f, eth, 12);
      if !ProtoIsVlan(Be16(eth, 12)) {
        return -1;
      }
      if data + ETH_HLEN + VLAN_HLEN > dataEnd {
        return -1;
      }
      var vlh := buf[data + ETH_HLEN..data + ETH_HLEN + VLAN_HLEN];
      Be16Inner(f, vlh);
      var vlid := Be16(vlh, 0);
      var err := AdjustHead(VLAN_HLEN);
      if err != 0 {
        return -1;
      }
      Poke(data, eth);
      Poke(data + 12, vlh[2..4]);
      PoppedInPlace(b, data, dataEnd);
      return vlid;
    }

    /** Pushing a tag and popping it again restores the frame and gives the tag back, in 16
        bits; without headroom nothing happens. */
    method PushPop(vlid: int) returns (r: int)
      requires Ok()
      modifies this`data, buf
      ensures Ok() && Frame() == old(Frame())
      ensures r == if room + VLAN_HLEN <= old(data) then vlid % 0x1_0000 else -1
    {
      hide Pushed, Popped, Be16, Htons;
      PushThenPop(Frame(), vlid);
      r := Push(vlid);
      if r == 0 {
        r := Pop();
      }
    }
  }

  lemma PokedMore(b: seq<byte>, p: nat, s: seq<byte>, k: nat)
    requires p + |s| <= |b| && k < |s|
    ensures Poked(b, p, s[..k])[p + k := s[k]] == Poked(b, p, s[..k + 1])
  {
  }

  lemma Be16Slice(f: seq<byte>, e: seq<byte>, p: nat)
    requires p + 2 <= |e| <= |f| && e == f[..|e|]
    ensures Be16(e, p) == Be16(f, p)
  {
  }

  lemma Be16Inner(f: seq<byte>, v: seq<byte>)
    requires |f| >= 18 && v == f[14..18]
    ensures Be16(v, 0) == Be16(f, 14)
  {
  }

  /** The four stores of a push, one after the other. */
  lemma PushedInPlace(b: seq<byte>, data: nat, dataEnd: nat, vlid: int)
    requires data + VLAN_HLEN + ETH_HLEN <= dataEnd <= |b|
    ensures var eth := b[data + VLAN_HLEN..data + VLAN_HLEN + ETH_HLEN];
            var b1 := Poked(b, data, eth);
            var b2 := Poked(b1, data + ETH_HLEN, Htons(vlid));
            var b3 := Poked(b2, data + ETH_HLEN + 2, eth[12..14]);
            var b4 := Poked(b3, data + 12, Htons(ETH_P_8021Q));
            b4[data..dataEnd] == Pushed(b[data + VLAN_HLEN..dataEnd], vlid)
  {
    hide Htons;
    var eth, f := b[data + VLAN_HLEN..data + VLAN_HLEN + ETH_HLEN], b[data + VLAN_HLEN..dataEnd];
    var b1 := Poked(b, data, eth);
    var b2 := Poked(b1, data + ETH_HLEN, Htons(vlid));
    var b3 := Poked(b2, data + ETH_HLEN + 2, eth[12..14]);
    var b4 := Poked(b3, data + 12, Htons(ETH_P_8021Q));
    var l, r := b4[data..dataEnd], Pushed(f, vlid);
    forall x | 0 <= x < |l| ensures l[x] == r[x] {
      var y := data + x;
      assert l[x] == b4[y] == if 12 <= x < 14 then Htons(ETH_P_8021Q)[x - 12] else b3[y];
      assert b3[y] == if 16 <= x < 18 then eth[x - 4] else b2[y];
      assert b2[y] == if 14 <= x < 16 then Htons(vlid)[x - 14] else b1[y];
      assert b1[y] == if x < 14 then eth[x] else b[y];
      assert r[x] == if x < 12 then f[x] else if x < 14 then Htons(ETH_P_8021Q)[x - 12]
                     else if x < 16 then Htons(vlid)[x - 14] else f[x - 4];
    }
  }

  lemma PoppedInPlace(b: seq<byte>, data: nat, dataEnd: nat)
    requires VLAN_HLEN <= data && data + ETH_HLEN <= dataEnd <= |b|
    ensures var eth, vlh := b[data - VLAN_HLEN..data - VLAN_HLEN + ETH_HLEN],
                            b[data - VLAN_HLEN + ETH_HLEN..data + ETH_HLEN];
            var b1 := Poked(b, data, eth);
            var b2 := Poked(b1, data + 12, vlh[2..4]);
            b2[data..dataEnd] == Popped(b[data - VLAN_HLEN..dataEnd])
  {
    var eth, vlh := b[data - VLAN_HLEN..data - VLAN_HLEN + ETH_HLEN], b[data - VLAN_HLEN + ETH_HLEN..data + ETH_HLEN];
    var b1, f := Poked(b, data, eth), b[data - VLAN_HLEN..dataEnd];
    var b2 := Poked(b1, data + 12, vlh[2..4]);
    var l, r := b2[data..dataEnd], Popped(f);
    forall x | 0 <= x < |l| ensures l[x] == r[x] {
      var y := data + x;
      assert l[x] == b2[y] == if 12 <= x < 14 then vlh[x - 10] else b1[y];
      assert b1[y] == if x < 14 then eth[x] else b[y];
      assert r[x] == if x < 12 then f[x] else f[x + 4];
    }
  }
}
