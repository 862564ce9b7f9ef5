/** Peer lists as byte strings: 6 bytes for each IPv4 peer (BEP 23) and 18 for each IPv6 peer (BEP 7). */
module CompactPeers {
  import opened MachineInts
  import opened Results
  import opened Updates

  /** Where a peer can be reached: an address of the width at hand, and a port */
  datatype Socket = Socket(octets: seq<u8>, port: u16)

  datatype Contact = Contact(ip: IpAddress, port: u16)

  type Bytes = seq<u8>

  /** `u16::to_be_bytes` */
  function PortBytes(port: u16): Bytes {
    [port / 256, port % 256]
  }

  function PortOf(hi: u8, lo: u8): u16 {
    256 * (hi as int) + lo as int
  }

  function Compact(s: Socket): Bytes {
    s.octets + PortBytes(s.port)
  }

  function CompactAll(ss: seq<Socket>): Bytes {
    if ss == [] then [] else Compact(ss[0]) + CompactAll(ss[1..])
  }

  /** Reads back a list of sockets whose addresses are `width` bytes wide */
  function ReadSockets(width: nat, bytes: Bytes): Option<seq<Socket>>
    decreases |bytes|
  {
    if bytes == [] then Some([])
    else if |bytes| < width + 2 then None
    else match ReadSockets(width, bytes[width + 2..])
         case Some(rest) => Some([Socket(bytes[..width], PortOf(bytes[width], bytes[width + 1]))] + rest)
         case None => None
  }

  ghost predicate AllWide(width: nat, ss: seq<Socket>) {
    forall i :: 0 <= i < |ss| ==> |ss[i].octets| == width
  }

  lemma PortRoundTrip(hi: u8, lo: u8, port: u16)
    ensures PortOf(port / 256, port % 256) == port
    ensures PortBytes(PortOf(hi, lo)) == [hi, lo]
  {
  }

  /** The bytes of a list of sockets, and of no other, are read back as that list */
  lemma {:induction false} ReadIff(width: nat, bytes: Bytes, ss: seq<Socket>)
    ensures ReadSockets(width, bytes) == Some(ss) <==> AllWide(width, ss) && bytes == CompactAll(ss)
    decreases |bytes| + |ss|
  {
    if bytes == [] || ss == [] {
      if ss != [] {
        assert |CompactAll(ss)| >= 2;
      }
    } else if |bytes| >= width + 2 {
      ReadIff(width, bytes[width + 2..], ss[1..]);
      HeadIff(width, bytes, ss);
      assert ss == [ss[0]] + ss[1..];
    } else if AllWide(width, ss) {
      assert |Compact(ss[0])| == width + 2;
    }
  }

  lemma HeadIff(width: nat, bytes: Bytes, ss: seq<Socket>)
    requires |bytes| >= width + 2 && ss != []
    ensures AllWide(width, ss) && bytes == CompactAll(ss)
            <==> ss[0] == Socket(bytes[..width], PortOf(bytes[width], bytes[width + 1]))
                 && AllWide(width, ss[1..]) && bytes[width + 2..] == CompactAll(ss[1..])
  {
    var head := bytes[..width + 2];
    assert bytes == head + bytes[width + 2..];
    PortRoundTrip(bytes[width], bytes[width + 1], ss[0].port);
    if AllWide(width, ss) && bytes == CompactAll(ss) {
      assert |Compact(ss[0])| == width + 2;
      assert head == Compact(ss[0]) == ss[0].octets + PortBytes(ss[0].port);
      assert bytes[..width] == head[..width] == ss[0].octets;
      assert bytes[width] == head[width] && bytes[width + 1] == head[width + 1];
      assert forall i :: 0 <= i < |ss[1..]| ==> ss[1..][i] == ss[i + 1];
    }
    if ss[0] == Socket(bytes[..width], PortOf(bytes[width], bytes[width + 1]))
       && AllWide(width, ss[1..]) && bytes[width + 2..] == CompactAll(ss[1..]) {
      assert head == bytes[..width] + [bytes[width], bytes[width + 1]] == Compact(ss[0]);
      assert forall i :: 0 < i < |ss| ==> ss[i] == ss[1..][i - 1];
    }
  }

  /** A socket is its address, and then its port with the most significant byte first */
  lemma CompactIs(s: Socket)
    ensures |Compact(s)| == |s.octets| + 2 && Compact(s)[..|s.octets|] == s.octets
    ensures 256 * (Compact(s)[|s.octets|] as int) + Compact(s)[|s.octets| + 1] as int == s.port
  {
  }

  // ---- The two lists of a reply ----

  function SocketsV4(cs: seq<Contact>): seq<Socket> {
    if cs == [] then []
    else (if cs[0].ip.V4? then [Socket(cs[0].ip.octets4, cs[0].port)] else []) + SocketsV4(cs[1..])
  }

  function SocketsV6(cs: seq<Contact>): seq<Socket> {
    if cs == [] then []
    else (if cs[0].ip.V6? then [Socket(cs[0].ip.octets16, cs[0].port)] else []) + SocketsV6(cs[1..])
  }

  lemma {:induction false} SocketsSnoc(cs: seq<Contact>, x: Contact)
    ensures SocketsV4(cs + [x]) == SocketsV4(cs) + (if x.ip.V4? then [Socket(x.ip.octets4, x.port)] else [])
    ensures SocketsV6(cs + [x]) == SocketsV6(cs) + (if x.ip.V6? then [Socket(x.ip.octets16, x.port)] else [])
  {
    if cs == [] {
      assert cs + [x] == [x] && [x][1..] == [];
    } else {
      SocketsSnoc(cs[1..], x);
      assert (cs + [x])[0] == cs[0] && (cs + [x])[1..] == cs[1..] + [x];
    }
  }

  lemma {:induction false} CompactSnoc(ss: seq<Socket>, s: Socket)
    ensures CompactAll(ss + [s]) == CompactAll(ss) + Compact(s)
  {
    if ss == [] {
      assert ss + [s] == [s] && [s][1..] == [];
    } else {
      CompactSnoc(ss[1..], s);
      assert (ss + [s])[0] == ss[0] && (ss + [s])[1..] == ss[1..] + [s];
      assert Compact(ss[0]) + (CompactAll(ss[1..]) + Compact(s)) == (Compact(ss[0]) + CompactAll(ss[1..])) + Compact(s);
    }
  }

  lemma {:induction false} SocketsAreWide(cs: seq<Contact>)
    ensures AllWide(4, SocketsV4(cs)) && AllWide(16, SocketsV6(cs))
  {
    if cs != [] {
      SocketsAreWide(cs[1..]);
      var rest4, rest6 := SocketsV4(cs[1..]), SocketsV6(cs[1..]);
      if cs[0].ip.V4? {
        assert forall i :: 0 < i < |SocketsV4(cs)| ==> SocketsV4(cs)[i] == rest4[i - 1];
      } else {
        assert forall i :: 0 < i < |SocketsV6(cs)| ==> SocketsV6(cs)[i] == rest6[i - 1];
      }
    }
  }

  lemma SerializedSnoc(cs: seq<Contact>, x: Contact)
    ensures CompactAll(SocketsV4(cs + [x]))
            == if x.ip.V4? then CompactAll(SocketsV4(cs)) + x.ip.octets4 + PortBytes(x.port) else CompactAll(SocketsV4(cs))
    ensures CompactAll(SocketsV6(cs + [x]))
            == if x.ip.V6? then CompactAll(SocketsV6(cs)) + x.ip.octets16 + PortBytes(x.port) else CompactAll(SocketsV6(cs))
  {
    SocketsSnoc(cs, x);
    assert SocketsV4(cs) + [] == SocketsV4(cs) && SocketsV6(cs) + [] == SocketsV6(cs);
    match x.ip
    case V4(octets) =>
      CompactSnoc(SocketsV4(cs), Socket(octets, x.port));
      Associate(CompactAll(SocketsV4(cs)), octets, PortBytes(x.port));
    case V6(octets) =>
      CompactSnoc(SocketsV6(cs), Socket(octets, x.port));
      Associate(CompactAll(SocketsV6(cs)), octets, PortBytes(x.port));
  }

  lemma Associate(a: Bytes, b: Bytes, c: Bytes)
    ensures (a + b) + c == a + (b + c)
  {
  }

  /** The peers are split by kind of address, each kind in order, and can be read back */
  method Serialize(cs: seq<Contact>) returns (ipv4: Bytes, ipv6: Bytes)
    ensures ReadSockets(4, ipv4) == Some(SocketsV4(cs))
    ensures ReadSockets(16, ipv6) == Some(SocketsV6(cs))
  {
    ipv4, ipv6 := [], [];
    for i := 0 to |cs|
      invariant ipv4 == CompactAll(SocketsV4(cs[..i]))
      invariant ipv6 == CompactAll(SocketsV6(cs[..i]))
    {
      assert cs[..i + 1] == cs[..i] + [cs[i]];
      SerializedSnoc(cs[..i], cs[i]);
      if cs[i].ip.V4? {
        ipv4 := ipv4 + cs[i].ip.octets4;
        ipv4 := ipv4 + PortBytes(cs[i].port);
      } else {
        ipv6 := ipv6 + cs[i].ip.octets16;
        ipv6 := ipv6 + PortBytes(cs[i].port);
      }
    }
    assert cs[..|cs|] == cs;
    SocketsAreWide(cs);
    ReadIff(4, ipv4, SocketsV4(cs));
    ReadIff(16, ipv6, SocketsV6(cs));
  }
}
